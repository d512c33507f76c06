/** The command builders. Each builder turns its arguments into the
    control sequence it sends, a `Cmd` (the arguments WriteCSI, WriteOSC,
    WriteDCS or Write receive), and `Send` hands a `Cmd` to the session.
    Builders guarded by a VT level return a Result. */
module EscCmd {
  import opened Types
  import opened Numerals
  import opened Esc
  import opened EscIo
  import opened EscUtil
  import opened Framing

  /** What a builder hands to the session's writers. */
  datatype Cmd =
    | Csi(prefix: string, params: seq<Param>, intermediate: string, final: string, requestsReport: bool)
    | Osc(params: seq<Param>, bel: bool, requestsReport: bool)
    | Dcs(introducer: string, body: string)
    | Plain(f: C1)            // Write of a bare C1 control in the current mode
    | Escape(text: string)    // Write of ESC followed by `text`

  /** The text a command puts on the wire. */
  function Text(use8Bit: bool, cmd: Cmd): string {
    match cmd
    case Csi(prefix, params, intermediate, final, _) => CsiSequence(use8Bit, prefix, params, intermediate, final)
    case Osc(params, bel, _) => OscSequence(use8Bit, params, bel)
    case Dcs(introducer, body) => DcsSequence(use8Bit, introducer, body)
    case Plain(f) => Control(use8Bit, f)
    case Escape(text) => [ESC] + text
  }

  /** Whether the command is also recorded on the side channel: everything
      except a control sequence that asks for a report. */
  predicate Mirrored(cmd: Cmd) {
    !((cmd.Csi? || cmd.Osc?) && cmd.requestsReport)
  }

  /** Sending a command: a CSI without a final, or text outside Latin-1,
      fails and changes nothing; otherwise the text is appended to the
      output, and to an attached side channel when the command is mirrored. */
  function SendStep(st: SessionState, cmd: Cmd): (r: Step<()>)
    ensures r.result.Ok? <==> Latin1(Text(st.use8Bit, cmd)) && !(cmd.Csi? && cmd.final == [])
    ensures r.result.Ok? ==> r.state.out == st.out + Text(st.use8Bit, cmd)
    ensures r.result.Ok? && Mirrored(cmd) && st.side.Some? ==> r.state.side == Some(st.side.value + Text(st.use8Bit, cmd))
    ensures !(r.result.Ok? && Mirrored(cmd)) ==> r.state.side == st.side
    ensures r.result.Err? ==> r.state == st
    ensures r.state.(out := st.out, side := st.side) == st
  {
    match cmd
    case Csi(prefix, params, intermediate, final, requestsReport) =>
      WriteCSIStep(st, prefix, params, intermediate, final, requestsReport)
    case Osc(params, bel, requestsReport) => WriteOSCStep(st, params, bel, requestsReport)
    case Dcs(introducer, body) => WriteDCSStep(st, introducer, body)
    case Plain(f) => WriteStep(st, Control(st.use8Bit, f), true)
    case Escape(text) => WriteStep(st, [ESC] + text, true)
  }

  /** Send a command to the live session. */
  method Send(s: Session, cmd: Cmd) returns (r: Result<()>)
    requires s.Valid()
    modifies s
    ensures s.Valid()
    ensures Step(r, s.State()) == SendStep(old(s.State()), cmd)
  {
    match cmd
    case Csi(prefix, params, intermediate, final, requestsReport) =>
      r := s.WriteCSI(prefix, params, intermediate, final, requestsReport);
    case Osc(params, bel, requestsReport) =>
      r := s.WriteOSC(params, bel, requestsReport);
    case Dcs(introducer, body) =>
      r := s.WriteDCS(introducer, body);
    case Plain(f) =>
      r := s.Write(Control(s.use8Bit, f), true);
    case Escape(text) =>
      r := s.Write([ESC] + text, true);
  }

  /** Python's int() of a parameter: an int is itself, a string is parsed,
      None is a TypeError. */
  function PyInt(p: Param): (r: Result<int>)
    ensures p.PInt? ==> r == Ok(p.i)
    ensures p.PNone? ==> r == Err(TypeError)
    ensures p.PStr? ==> (r.Ok? <==> ParseInt(p.s).Some?)
  {
    match p
    case PNone => Err(TypeError)
    case PInt(i) => Ok(i)
    case PStr(s) => if ParseInt(s).Some? then Ok(ParseInt(s).value) else Err(ValueError)
  }

  /** `[arg]`, or nothing when the argument is None. */
  function Given(arg: Param): (r: seq<Param>)
    ensures r == [] <==> arg == PNone
    ensures r != [] ==> r == [arg]
  {
    if arg == PNone then [] else [arg]
  }

  // ---------------------------------------------------------------------
  // Builders taking one optional parameter

  /** The CSI commands whose only parameter may be omitted. */
  datatype OneParam =
    | CBT | CHA | CHT | CNL | CPL | CUB | CUD | CUF | CUU | DA | DA2 | DCH
    | DECDC | DECELF | DECIC | DECLFKC | DECSACE | DECSASD | DECSCA | DECSCUSR
    | DECSED | DECSEL | DECSMKR | DECSNLS | DECSSDT | DL | ECH | ED | EL
    | HPA | HPR | ICH | IL | REP | RM | SD | SM | SU | TBC | VPA | VPR
    | XTERM_RESTORE | XTERM_SAVE
  {
    function Prefix(): string {
      match this
      case DA2 => ">"
      case DECSED | DECSEL | XTERM_RESTORE | XTERM_SAVE => "?"
      case _ => ""
    }

    function Intermediate(): string {
      match this
      case DECDC | DECIC => "'"
      case DECELF | DECSMKR => "+"
      case DECLFKC | DECSACE | DECSNLS => "*"
      case DECSASD | DECSSDT => "$"
      case DECSCA => "\""
      case DECSCUSR => " "
      case _ => ""
    }

    function Final(): string {
      match this
      case CBT => "Z" case CHA => "G" case CHT => "I" case CNL => "E"
      case CPL => "F" case CUB => "D" case CUD => "B" case CUF => "C"
      case CUU => "A" case DA => "c" case DA2 => "c" case DCH => "P"
      case DECDC => "~" case DECELF => "q" case DECIC => "}" case DECLFKC => "}"
      case DECSACE => "x" case DECSASD => "}" case DECSCA => "q" case DECSCUSR => "q"
      case DECSED => "J" case DECSEL => "K" case DECSMKR => "r" case DECSNLS => "|"
      case DECSSDT => "~" case DL => "M" case ECH => "X" case ED => "J"
      case EL => "K" case HPA => "`" case HPR => "a" case ICH => "@"
      case IL => "L" case REP => "b" case RM => "l" case SD => "T"
      case SM => "h" case SU => "S" case TBC => "g" case VPA => "d"
      case VPR => "e" case XTERM_RESTORE => "r" case XTERM_SAVE => "s"
    }

    /** The VT level the builder asserts, if any. */
    function MinVtLevel(): Option<int> {
      match this
      case DECELF | DECLFKC | DECSACE | DECSMKR => Some(4)
      case DECSASD | DECSSDT => Some(3)
      case DECSCA => Some(2)
      case _ => None
    }
  }

  /** A one-parameter builder: the VT-level check, then no parameter for
      None and the argument otherwise. */
  function Single(cfg: Config, b: OneParam, arg: Param): (r: Result<Cmd>)
    ensures r.Err? <==> b.MinVtLevel().Some? && cfg.vtLevel < b.MinVtLevel().value
    ensures r.Ok? ==> r.value.Csi? && !r.value.requestsReport && r.value.params == Given(arg)
  {
    if b.MinVtLevel().Some? && cfg.vtLevel < b.MinVtLevel().value then
      Err(InsufficientVTLevel(cfg.vtLevel, b.MinVtLevel().value))
    else
      Ok(Csi(b.Prefix(), Given(arg), b.Intermediate(), b.Final(), false))
  }

  /** Every one-parameter builder ends in one character that is neither a
      digit nor `;`, after at most one prefix character of the same kind. */
  lemma OneParamShape(b: OneParam)
    ensures var ef := b.Intermediate() + b.Final();
      |b.Final()| == 1 && |ef| > 0 && !IsDigit(ef[0]) && ef[0] != ';'
    ensures b.Prefix() == [] || (|b.Prefix()| == 1 && !IsUnicodeDigit(b.Prefix()[0]) && b.Prefix()[0] != ';')
  {
  }

  /** Omitting the argument sends exactly what an explicit default (None)
      would: the bare introducer, prefix, intermediate and final. */
  lemma OmittedIsDefault(use8Bit: bool, b: OneParam)
    ensures var bare := Control(use8Bit, CSI) + b.Prefix() + b.Intermediate() + b.Final();
      Text(use8Bit, Csi(b.Prefix(), [], b.Intermediate(), b.Final(), false)) == bare &&
      Text(use8Bit, Csi(b.Prefix(), [PNone], b.Intermediate(), b.Final(), false)) == bare
  {
    assert TrimTrailingEmpty(StringifyAll([PNone])) == [];
    assert TrimTrailingEmpty(StringifyAll([])) == [];
  }

  /** The expected prefix a reader of `cmd`'s reply would pass. */
  function PrefixOption(prefix: string): Option<string> {
    if prefix == [] then None else Some(prefix)
  }

  /** A CSI command whose text ReadCSI can take apart: at most one prefix
      character and an intermediate-plus-final that starts with neither a
      digit nor `;`. */
  predicate Parseable(cmd: Cmd) {
    && cmd.Csi?
    && (cmd.prefix == [] || (|cmd.prefix| == 1 && !IsUnicodeDigit(cmd.prefix[0]) && cmd.prefix[0] != ';'))
    && var ef := cmd.intermediate + cmd.final;
       |ef| > 0 && !IsDigit(ef[0]) && ef[0] != ';'
  }

  /** A parseable command with numeric parameters, possibly followed by
      defaults, reads back as those numbers. */
  lemma CsiRoundTrip(use8Bit: bool, cmd: Cmd, ns: seq<nat>, k: nat, rest: string)
    requires Parseable(cmd) && |ns| > 0 && cmd.params == NatParams(ns) + Defaults(k)
    ensures var text := Text(use8Bit, cmd);
      ReadCSISpec(text + rest, 0, cmd.intermediate + cmd.final, PrefixOption(cmd.prefix)) == Reply(Ok(Somes(ns)), |text|)
  {
    ReadCSIRoundTrip(use8Bit, cmd.prefix, ns, k, cmd.intermediate, cmd.final, PrefixOption(cmd.prefix), rest);
  }

  /** What a one-parameter builder sends with a number, ReadCSI parses back
      to that number. */
  lemma SingleRoundTrip(use8Bit: bool, cfg: Config, b: OneParam, n: nat, rest: string)
    requires Single(cfg, b, PInt(n)).Ok?
    ensures var text := Text(use8Bit, Single(cfg, b, PInt(n)).value);
      ReadCSISpec(text + rest, 0, b.Intermediate() + b.Final(), PrefixOption(b.Prefix())) == Reply(Ok([Some(n)]), |text|)
  {
    OneParamShape(b);
    assert NatParams([n]) + Defaults(0) == [PInt(n)];
    CsiRoundTrip(use8Bit, Single(cfg, b, PInt(n)).value, [n], 0, rest);
    assert Somes([n]) == [Some(n)];
  }

  // ---------------------------------------------------------------------
  // Cursor positioning

  /** The parameters of CUP and HVP: none without arguments, row then
      column from a point, and otherwise the row (empty when only the
      column is given) followed by the column when there is one. */
  function CursorParams(point: Option<Point>, row: Param, col: Param): seq<Param> {
    if point.None? && row == PNone && col == PNone then []
    else if point.None? then
      var r := if row == PNone then PStr("") else row;
      [r] + Given(col)
    else [PInt(point.value.y), PInt(point.value.x)]
  }

  /** CUP: cursor position, final H. */
  function CUP(point: Option<Point>, row: Param, col: Param): (c: Cmd)
    ensures c.Csi? && c.prefix == [] && c.intermediate == [] && c.final == "H" && !c.requestsReport
  {
    Csi("", CursorParams(point, row, col), "", "H", false)
  }

  /** HVP: final f with a point, and H (as CUP) for its other forms. */
  function HVP(point: Option<Point>, row: Param, col: Param): (c: Cmd)
    ensures c.Csi? && c.prefix == [] && c.intermediate == [] && !c.requestsReport
    ensures c.final == "f" <==> point.Some?
    ensures c.final == "H" <==> point.None?
  {
    Csi("", CursorParams(point, row, col), "", if point.Some? then "f" else "H", false)
  }

  /** The text of a CSI command whose last parameter is not a default:
      nothing is trimmed. */
  lemma CsiPlain(use8Bit: bool, cmd: Cmd)
    requires cmd.Csi? && (cmd.params == [] || StringifyCSIParam(cmd.params[|cmd.params| - 1]) != "")
    ensures Text(use8Bit, cmd) == Control(use8Bit, CSI) + cmd.prefix + Join(";", StringifyAll(cmd.params)) + cmd.intermediate + cmd.final
  {
  }

  lemma JoinTwo(sep: string, a: string, b: string)
    ensures Join(sep, [a, b]) == a + sep + b
  {
    assert [a, b][1..] == [b];
  }

  /** The forms CUP sends: CSI H without arguments, CSI ; col H for a
      column alone (the row left to its default), CSI row H for a row
      alone. */
  lemma CupForms(use8Bit: bool, row: nat, col: nat)
    ensures Text(use8Bit, CUP(None, PNone, PNone)) == Control(use8Bit, CSI) + "H"
    ensures Text(use8Bit, CUP(None, PNone, PInt(col))) == Control(use8Bit, CSI) + ";" + NatToString(col) + "H"
    ensures Text(use8Bit, CUP(None, PInt(row), PNone)) == Control(use8Bit, CSI) + NatToString(row) + "H"
  {
    CupBare(use8Bit);
    CupColumnOnly(use8Bit, col);
    CupRowOnly(use8Bit, row);
  }

  lemma CupBare(use8Bit: bool)
    ensures Text(use8Bit, CUP(None, PNone, PNone)) == Control(use8Bit, CSI) + "H"
  {
    CsiPlain(use8Bit, CUP(None, PNone, PNone));
  }

  lemma CupColumnOnly(use8Bit: bool, col: nat)
    ensures Text(use8Bit, CUP(None, PNone, PInt(col))) == Control(use8Bit, CSI) + ";" + NatToString(col) + "H"
  {
    var c := CUP(None, PNone, PInt(col));
    var none: string := [];
    assert c.params == [PStr(none), PInt(col)];
    assert StringifyAll(c.params) == [none, NatToString(col)];
    CsiPlain(use8Bit, c);
    JoinTwo(";", none, NatToString(col));
    assert none + ";" + NatToString(col) == ";" + NatToString(col);
    assert c.prefix == none && c.intermediate == none && c.final == "H";
  }

  lemma CupRowOnly(use8Bit: bool, row: nat)
    ensures Text(use8Bit, CUP(None, PInt(row), PNone)) == Control(use8Bit, CSI) + NatToString(row) + "H"
  {
    var c := CUP(None, PInt(row), PNone);
    assert Given(PNone) == [];
    assert c == Csi("", [PInt(row)], "", "H", false);
    var d := NatToString(row);
    assert StringifyAll(c.params) == [d];
    assert Join(";", [d]) == d;
    CsiPlain(use8Bit, c);
  }

  /** CUP and HVP to a point send the row and then the column, and the
      terminal's parser recovers them in that order. */
  lemma CursorRoundTrip(use8Bit: bool, x: nat, y: nat, rest: string)
    ensures var text := Text(use8Bit, CUP(Some(Point(x, y)), PNone, PNone));
      ReadCSISpec(text + rest, 0, "H", None) == Reply(Ok([Some(y), Some(x)]), |text|)
    ensures var text := Text(use8Bit, HVP(Some(Point(x, y)), PNone, PNone));
      ReadCSISpec(text + rest, 0, "f", None) == Reply(Ok([Some(y), Some(x)]), |text|)
  {
    assert NatParams([y, x]) + Defaults(0) == [PInt(y), PInt(x)];
    assert Somes([y, x]) == [Some(y), Some(x)];
    assert "" + "H" == "H" && "" + "f" == "f";
    CsiRoundTrip(use8Bit, CUP(Some(Point(x, y)), PNone, PNone), [y, x], 0, rest);
    CsiRoundTrip(use8Bit, HVP(Some(Point(x, y)), PNone, PNone), [y, x], 0, rest);
  }

  // ---------------------------------------------------------------------
  // Margins, rectangles and reports

  /** DECSTBM: only the margins given are sent, so a bottom margin alone
      is sent as the only parameter. */
  function DECSTBM(top: Param, bottom: Param): (c: Cmd)
    ensures c.Csi? && c.final == "r" && c.prefix == [] && c.intermediate == [] && !c.requestsReport
    ensures c.params == Given(top) + Given(bottom)
  {
    var params := [];
    var params := if top != PNone then params + [top] else params;
    var params := if bottom != PNone then params + [bottom] else params;
    Csi("", params, "", "r", false)
  }

  /** DECSTBM's margins read back in order, and a bottom margin alone
      reads back as the only (first) parameter. */
  lemma DecstbmRoundTrip(use8Bit: bool, top: nat, bottom: nat, rest: string)
    ensures var text := Text(use8Bit, DECSTBM(PInt(top), PInt(bottom)));
      ReadCSISpec(text + rest, 0, "r", None) == Reply(Ok([Some(top), Some(bottom)]), |text|)
    ensures var text := Text(use8Bit, DECSTBM(PNone, PInt(bottom)));
      ReadCSISpec(text + rest, 0, "r", None) == Reply(Ok([Some(bottom)]), |text|)
  {
    assert NatParams([top, bottom]) + Defaults(0) == [PInt(top), PInt(bottom)];
    assert Somes([top, bottom]) == [Some(top), Some(bottom)];
    assert NatParams([bottom]) + Defaults(0) == [PInt(bottom)];
    assert Somes([bottom]) == [Some(bottom)];
    assert "" + "r" == "r";
    CsiRoundTrip(use8Bit, DECSTBM(PInt(top), PInt(bottom)), [top, bottom], 0, rest);
    CsiRoundTrip(use8Bit, DECSTBM(PNone, PInt(bottom)), [bottom], 0, rest);
  }

  /** DECSTBM() resets the margins with a bare CSI r. */
  lemma DecstbmReset(use8Bit: bool)
    ensures Text(use8Bit, DECSTBM(PNone, PNone)) == Control(use8Bit, CSI) + "r"
  {
    CsiPlain(use8Bit, DECSTBM(PNone, PNone));
  }

  /** A rectangle's parameters Pt;Pl;Pb;Pr. */
  function RectParams(rect: Rect): (r: seq<Param>)
    ensures r == [PInt(rect.top), PInt(rect.left), PInt(rect.bottom), PInt(rect.right)]
  {
    [PInt(rect.top), PInt(rect.left), PInt(rect.bottom), PInt(rect.right)]
  }

  /** DECRQCRA: request the checksum of a rectangle (VT level 4). The
      page, when omitted before a rectangle, is sent as an empty field so
      that the rectangle keeps its positions. */
  function DECRQCRA(cfg: Config, pid: Param, pp: Param, rect: Option<Rect>): (r: Result<Cmd>)
    ensures r.Err? <==> cfg.vtLevel < 4
    ensures r.Err? ==> r.error == InsufficientVTLevel(cfg.vtLevel, 4)
    ensures r.Ok? ==> r.value.Csi? && r.value.prefix == [] && r.value.intermediate == "*" && r.value.final == "y"
    ensures r.Ok? ==> r.value.requestsReport && !Mirrored(r.value)
  {
    var _ :- AssertVTLevel(cfg, 4);
    var params := [pid];
    var params := if pp != PNone then params + [pp] else if rect.Some? then params + [PStr("")] else params;
    var params := if rect.Some? then params + RectParams(rect.value) else params;
    Ok(Csi("", params, "*", "y", true))
  }

  /** The parameter list DECRQCRA sends: the id, then the page (or an
      empty placeholder when a rectangle follows), then the rectangle. */
  lemma DecrqcraParams(cfg: Config, pid: Param, pp: Param, rect: Option<Rect>)
    requires cfg.vtLevel >= 4
    ensures var c := DECRQCRA(cfg, pid, pp, rect).value;
      c.params == [pid] + (if pp != PNone then [pp] else if rect.Some? then [PStr("")] else []) +
        (if rect.Some? then RectParams(rect.value) else [])
  {
  }

  /** The checksum request GetChecksumOfRect sends for one cell: the id,
      page 0 and the cell's corners, CSI id;0;y;x;y;x * y. */
  lemma DecrqcraText(use8Bit: bool, cfg: Config, pid: nat, x: nat, y: nat)
    requires cfg.vtLevel >= 4
    ensures Text(use8Bit, DECRQCRA(cfg, PInt(pid), PInt(0), Some(Rect(x, y, x, y))).value) ==
      Control(use8Bit, CSI) + Join(";", [NatToString(pid), "0", NatToString(y), NatToString(x), NatToString(y), NatToString(x)]) + "*y"
  {
    CellRequestFields(cfg, pid, x, y);
    CsiPlain(use8Bit, DECRQCRA(cfg, PInt(pid), PInt(0), Some(Rect(x, y, x, y))).value);
  }

  lemma CellRequestFields(cfg: Config, pid: nat, x: nat, y: nat)
    requires cfg.vtLevel >= 4
    ensures var c := DECRQCRA(cfg, PInt(pid), PInt(0), Some(Rect(x, y, x, y))).value;
      c.Csi? && |c.params| == 6 && StringifyCSIParam(c.params[5]) != "" &&
      StringifyAll(c.params) == [NatToString(pid), "0", NatToString(y), NatToString(x), NatToString(y), NatToString(x)]
  {
    var c := DECRQCRA(cfg, PInt(pid), PInt(0), Some(Rect(x, y, x, y))).value;
    assert c.params == [PInt(pid), PInt(0), PInt(y), PInt(x), PInt(y), PInt(x)];
    assert NatToString(0) == "0";
  }

  /** The window operations that make xterm answer. */
  const ReportingWinops: set<int> := {11, 13, 14, 18, 19, 20, 21}

  /** XTERM_WINOPS: the arguments up to the last one given (an omitted one
      before it is kept as a default); it asks for a report exactly when the
      operation is one of the report requests. */
  function XTERM_WINOPS(ps1: Param, ps2: Param, ps3: Param): (c: Cmd)
    ensures c.Csi? && c.final == "t" && c.prefix == [] && c.intermediate == []
    ensures c.requestsReport <==> ps1.PInt? && ps1.i in ReportingWinops
    ensures |c.params| <= 3 && c.params == [ps1, ps2, ps3][..|c.params|]
    ensures c.params == [] || c.params[|c.params| - 1] != PNone
    ensures forall k :: |c.params| <= k < 3 ==> [ps1, ps2, ps3][k] == PNone
  {
    var params :=
      if ps3 != PNone then [ps1, ps2, ps3]
      else if ps2 != PNone then [ps1, ps2]
      else if ps1 != PNone then [ps1]
      else [];
    Csi("", params, "", "t", ps1.PInt? && ps1.i in ReportingWinops)
  }

  /** The truncation changes nothing on the wire: WriteCSI drops trailing
      defaults anyway. */
  lemma WinopsTruncationInvisible(use8Bit: bool, ps1: Param, ps2: Param, ps3: Param)
    ensures Text(use8Bit, XTERM_WINOPS(ps1, ps2, ps3)) == Text(use8Bit, Csi("", [ps1, ps2, ps3], "", "t", false))
  {
    var c := XTERM_WINOPS(ps1, ps2, ps3);
    var all := StringifyAll([ps1, ps2, ps3]);
    var some := StringifyAll(c.params);
    assert some == all[..|some|];
    forall k | |some| <= k < 3
      ensures all[k] == ""
    {
      assert [ps1, ps2, ps3][k] == PNone;
    }
    TrimDroppedEmpties(all, |some|);
  }

  /** Cutting off empty strings at the end does not change the trimmed list. */
  lemma {:induction false} TrimDroppedEmpties(ss: seq<string>, n: nat)
    requires n <= |ss| && forall k :: n <= k < |ss| ==> ss[k] == ""
    ensures TrimTrailingEmpty(ss[..n]) == TrimTrailingEmpty(ss)
    decreases |ss| - n
  {
    if n < |ss| {
      TrimDroppedEmpties(ss, n + 1);
      assert ss[..n + 1][..n] == ss[..n];
      assert ss[..n + 1][n] == "";
    } else {
      assert ss[..n] == ss;
    }
  }

  /** A report request such as 18 (text area size) is kept off the side
      channel; a plain operation such as 8 (resize) is recorded. */
  lemma WinopsExamples(use8Bit: bool)
    ensures Text(use8Bit, XTERM_WINOPS(PInt(18), PNone, PNone)) == Control(use8Bit, CSI) + "18t"
    ensures !Mirrored(XTERM_WINOPS(PInt(18), PNone, PNone))
    ensures Text(use8Bit, XTERM_WINOPS(PInt(8), PNone, PInt(80))) == Control(use8Bit, CSI) + "8;;80t"
    ensures Mirrored(XTERM_WINOPS(PInt(8), PNone, PInt(80)))
  {
    WinopsReport(use8Bit);
    WinopsResize(use8Bit);
  }

  lemma WinopsReport(use8Bit: bool)
    ensures Text(use8Bit, XTERM_WINOPS(PInt(18), PNone, PNone)) == Control(use8Bit, CSI) + "18t"
  {
    var c := XTERM_WINOPS(PInt(18), PNone, PNone);
    assert NatToString(18) == "18" by { DivMod(18, 10); assert NatToDigits(1, 10) == "1"; }
    assert c.params == [PInt(18)];
    assert StringifyAll(c.params) == ["18"];
    CsiPlain(use8Bit, c);
  }

  lemma WinopsResize(use8Bit: bool)
    ensures Text(use8Bit, XTERM_WINOPS(PInt(8), PNone, PInt(80))) == Control(use8Bit, CSI) + "8;;80t"
  {
    var c := XTERM_WINOPS(PInt(8), PNone, PInt(80));
    assert NatToString(8) == "8";
    assert NatToString(80) == "80" by { DivMod(80, 10); assert NatToDigits(8, 10) == "8"; }
    assert c.params == [PInt(8), PNone, PInt(80)];
    assert StringifyAll(c.params) == ["8", "", "80"];
    CsiPlain(use8Bit, c);
    JoinTwo(";", "", "80");
    assert ["8", "", "80"][1..] == ["", "80"];
  }

  /** DECDSR: no parameters when Ps is None (an id given with it is not
      sent), else Ps and the optional id; the caller says whether it is a
      report request. */
  function DECDSR(ps: Param, pid: Param, suppressSideChannel: bool): (c: Cmd)
    ensures c.Csi? && c.prefix == "?" && c.intermediate == [] && c.final == "n"
    ensures c.params == if ps == PNone then [] else [ps] + Given(pid)
    ensures c.requestsReport == suppressSideChannel
  {
    var params := if ps == PNone then [] else if pid == PNone then [ps] else [ps, pid];
    Csi("?", params, "", "n", suppressSideChannel)
  }

  /** DSR: the status request without the DEC prefix. */
  function DSR(ps: Param, suppressSideChannel: bool): (c: Cmd)
    ensures c == Csi("", Given(ps), "", "n", suppressSideChannel)
  {
    Csi("", if ps == PNone then [] else [ps], "", "n", suppressSideChannel)
  }

  /** DECRQM: the mode request, VT level 3, with the DEC prefix for DEC modes. */
  function DECRQM(cfg: Config, mode: Param, dec: bool): (r: Result<Cmd>)
    ensures r.Err? <==> cfg.vtLevel < 3
    ensures r.Ok? ==> r.value == Csi(if dec then "?" else "", [mode], "$", "p", false)
  {
    var _ :- AssertVTLevel(cfg, 3);
    if dec then Ok(Csi("?", [mode], "$", "p", false)) else Ok(Csi("", [mode], "$", "p", false))
  }

  /** DECRQSS: the setting request, VT level 3, sent as a DCS string. */
  function DECRQSS(cfg: Config, pt: string): (r: Result<Cmd>)
    ensures r.Err? <==> cfg.vtLevel < 3
    ensures r.Ok? ==> r.value == Dcs("$q", pt)
  {
    var _ :- AssertVTLevel(cfg, 3);
    Ok(Dcs("$q", pt))
  }

  /** DECSCL: the conformance level and the optional 7/8-bit choice. */
  function DECSCL(level: Param, sevenBit: Param): (c: Cmd)
    ensures c.Csi? && c.prefix == [] && c.intermediate == "\"" && c.final == "p" && !c.requestsReport
    ensures c.params == [level] + Given(sevenBit)
  {
    Csi("", if sevenBit == PNone then [level] else [level, sevenBit], "\"", "p", false)
  }

  /** The reverse-wraparound private mode: the extended one from xterm
      patch 383 on, the original one before. */
  const ReverseWrapExtend: int := 1045
  const ReverseWrapInline: int := 45

  function ReverseWraparound(cfg: Config): (mode: int)
    ensures mode == ReverseWrapExtend <==> cfg.xtermReverseWrap >= 383
    ensures mode == ReverseWrapInline <==> cfg.xtermReverseWrap < 383
  {
    if cfg.xtermReverseWrap >= 383 then ReverseWrapExtend else ReverseWrapInline
  }

  // ---------------------------------------------------------------------
  // Remaining CSI, OSC, DCS and escape builders

  /** SCORC and SCOSC: restore and save the cursor. */
  const SCORC: Cmd := Csi("", [], "", "u", false)
  const SCOSC: Cmd := Csi("", [], "", "s", false)

  /** DECSTR: soft reset. */
  const DECSTR: Cmd := Csi("!", [], "", "p", false)

  /** The two-character escape sequences. */
  const DECALN: Cmd := Escape("#8")
  const DECBI: Cmd := Escape("6")
  const DECFI: Cmd := Escape("9")
  const DECRC: Cmd := Escape("8")
  const DECSC: Cmd := Escape("7")
  const RIS: Cmd := Escape("c")

  /** DECDHL: double-height line half `x`. */
  function DECDHL(x: Param): Cmd {
    Escape("#" + Str(x))
  }

  /** DECCRA: copy a rectangle; all eight parameters are passed through. */
  function DECCRA(sourceTop: Param, sourceLeft: Param, sourceBottom: Param, sourceRight: Param,
                  sourcePage: Param, destTop: Param, destLeft: Param, destPage: Param): Cmd {
    Csi("", [sourceTop, sourceLeft, sourceBottom, sourceRight, sourcePage, destTop, destLeft, destPage], "$", "v", false)
  }

  /** DECERA, DECFRA, DECSERA: erase, fill and selectively erase a rectangle. */
  function DECERA(pt: Param, pl: Param, pb: Param, pr: Param): Cmd {
    Csi("", [pt, pl, pb, pr], "$", "z", false)
  }

  function DECFRA(pch: Param, pt: Param, pl: Param, pb: Param, pr: Param): Cmd {
    Csi("", [pch, pt, pl, pb, pr], "$", "x", false)
  }

  function DECSERA(cfg: Config, pt: Param, pl: Param, pb: Param, pr: Param): (r: Result<Cmd>)
    ensures r.Err? <==> cfg.vtLevel < 4
  {
    var _ :- AssertVTLevel(cfg, 4);
    Ok(Csi("", [pt, pl, pb, pr], "$", "{", false))
  }

  /** DECSLRM: left and right margins (VT level 4). */
  function DECSLRM(cfg: Config, pl: Param, pr: Param): (r: Result<Cmd>)
    ensures r.Err? <==> cfg.vtLevel < 4
    ensures r.Err? ==> r.error == InsufficientVTLevel(cfg.vtLevel, 4)
    ensures r.Ok? ==>
      r.value.Csi? && r.value.params == [pl, pr] && r.value.final == "s" &&
      r.value.prefix == "" && r.value.intermediate == "" && !r.value.requestsReport
  {
    var _ :- AssertVTLevel(cfg, 4);
    Ok(Csi("", [pl, pr], "", "s", false))
  }

  /** DECSET, DECRESET: set and reset a DEC private mode. */
  function DECSET(pm: Param): Cmd {
    Csi("?", [pm], "", "h", false)
  }

  function DECRESET(pm: Param): Cmd {
    Csi("?", [pm], "", "l", false)
  }

  /** SM_Title, RM_Title: set and reset title modes. */
  function SM_Title(ps1: Param, ps2: Param): Cmd {
    Csi(">", [ps1] + Given(ps2), "", "t", false)
  }

  function RM_Title(ps1: Param, ps2: Param): Cmd {
    Csi(">", [ps1] + Given(ps2), "", "T", false)
  }

  /** SGR: the attributes, all passed through. */
  function SGR(args: seq<Param>): Cmd {
    Csi("", args, "", "m", false)
  }

  /** The title setters: OSC 2, 1 and 0 with the title. */
  function ChangeWindowTitle(title: string, bel: bool, suppressSideChannel: bool): Cmd {
    Osc([PStr("2"), PStr(title)], bel, suppressSideChannel)
  }

  function ChangeIconTitle(title: string, bel: bool, suppressSideChannel: bool): Cmd {
    Osc([PStr("1"), PStr(title)], bel, suppressSideChannel)
  }

  function ChangeWindowAndIconTitle(title: string, bel: bool, suppressSideChannel: bool): Cmd {
    Osc([PStr("0"), PStr(title)], bel, suppressSideChannel)
  }

  /** ManipulateSelectionData: OSC 52 with the selection. Data to store is
      first passed to a helper the encoding module does not define, so a
      call that gives data raises AttributeError before anything is sent. */
  function ManipulateSelectionData(pc: Param, pd: Option<string>): (r: Result<Cmd>)
    ensures r.Err? <==> pd.Some?
    ensures r.Err? ==> r.error == AttributeError
    ensures r.Ok? ==> r.value.Osc? && !r.value.bel && r.value.params == [PStr("52"), pc]
  {
    if pd.Some? then Err(AttributeError)
    else Ok(Osc([PStr("52"), pc], false, false))
  }

  /** ResetSpecialColor, ResetColor, ResetDynamicColor: OSC 105, OSC 104
      and the dynamic colour's own reset number. */
  function ResetSpecialColor(args: seq<Param>): Cmd {
    Osc([PStr("105")] + args, false, false)
  }

  function ResetColor(c: Param): Cmd {
    Osc([PStr("104"), c], false, false)
  }

  function ResetDynamicColor(c: Param): Cmd {
    Osc([PStr(Str(c))], false, false)
  }

  /** Which commands are kept off the side channel: DECRQCRA always, the
      report requests among the window operations, and DECDSR, DSR and the
      title setters when the caller says so; the cursor, margin, scroll,
      mode-query and colour commands are mirrored, the colour commands even
      when they query. */
  lemma SideChannelFlags(cfg: Config, ps: Param, pid: Param, suppress: bool, title: string, bel: bool,
                         args: seq<Param>, b: OneParam, point: Option<Point>, row: Param, col: Param)
    ensures !Mirrored(DECDSR(ps, pid, suppress)) <==> suppress
    ensures !Mirrored(DSR(ps, suppress)) <==> suppress
    ensures !Mirrored(ChangeWindowTitle(title, bel, suppress)) <==> suppress
    ensures !Mirrored(ChangeIconTitle(title, bel, suppress)) <==> suppress
    ensures !Mirrored(ChangeWindowAndIconTitle(title, bel, suppress)) <==> suppress
    ensures !Mirrored(XTERM_WINOPS(ps, pid, row)) <==> ps.PInt? && ps.i in ReportingWinops
    ensures cfg.vtLevel >= 4 ==> !Mirrored(DECRQCRA(cfg, pid, ps, None).value)
    ensures Mirrored(ChangeColor(args)) && Mirrored(ChangeDynamicColor(args))
    ensures Single(cfg, b, ps).Ok? ==> Mirrored(Single(cfg, b, ps).value)
    ensures Mirrored(CUP(point, row, col)) && Mirrored(HVP(point, row, col))
    ensures Mirrored(DECSTBM(row, col)) && Mirrored(DECSCL(row, col))
    ensures cfg.vtLevel >= 3 ==> Mirrored(DECRQSS(cfg, title).value) && Mirrored(DECRQM(cfg, ps, bel).value)
  {
  }

  /** The builders without a side-channel choice are all mirrored, and so
      is every bare C1 control and two-character escape. */
  lemma MirroredBuilders(ps: Param, pid: Param, row: Param, col: Param, title: string, args: seq<Param>,
                         cfg: Config, f: C1, text: string)
    ensures Mirrored(DECSET(ps)) && Mirrored(DECRESET(ps)) && Mirrored(SGR(args))
    ensures Mirrored(SM_Title(ps, pid)) && Mirrored(RM_Title(ps, pid))
    ensures Mirrored(DECERA(ps, pid, row, col)) && Mirrored(DECFRA(ps, ps, pid, row, col))
    ensures Mirrored(DECCRA(ps, pid, row, col, ps, pid, row, col))
    ensures cfg.vtLevel >= 4 ==> Mirrored(DECSERA(cfg, ps, pid, row, col).value) && Mirrored(DECSLRM(cfg, ps, pid).value)
    ensures Mirrored(ManipulateSelectionData(ps, None).value) && Mirrored(ResetColor(ps))
    ensures Mirrored(ResetSpecialColor(args)) && Mirrored(ResetDynamicColor(ps))
    ensures Mirrored(Plain(f)) && Mirrored(Escape(text)) && Mirrored(DECDHL(ps))
  {
  }

  /** APC, DCS, DECID, EPA, HTS, IND, NEL, PM, RI, SOS, SPA and ST each send
      their bare C1 control, `Plain(f)`: one character in 8-bit mode, ESC
      and a second character in 7-bit mode, standing for the control's code
      either way. */
  lemma PlainBuilders(use8Bit: bool, f: C1)
    ensures use8Bit <==> Is8BitControl(Text(use8Bit, Plain(f)))
    ensures !use8Bit <==> Is7BitControl(Text(use8Bit, Plain(f)))
    ensures C1CodeOf(Text(use8Bit, Plain(f))) == Some(f.Code())
  {
  }

  /** DECDHL sends ESC, '#' and the line half as a decimal number. */
  lemma DecdhlForm(use8Bit: bool, x: nat)
    ensures Text(use8Bit, DECDHL(PInt(x))) == [ESC, '#'] + NatToString(x)
  {
    var d := NatToString(x);
    assert Str(PInt(x)) == d;
    assert DECDHL(PInt(x)) == Escape("#" + d);
    assert [ESC] + ("#" + d) == [ESC, '#'] + d;
  }

  /** DECDSR without Ps sends no parameter, even when an id is given. */
  lemma DecdsrIdNeedsPs(use8Bit: bool, pid: Param, suppress: bool)
    ensures Text(use8Bit, DECDSR(PNone, pid, suppress)) == Control(use8Bit, CSI) + "?n"
  {
    CsiPlain(use8Bit, DECDSR(PNone, pid, suppress));
  }

  /** The fixed commands' texts. */
  lemma FixedForms(use8Bit: bool)
    ensures Text(use8Bit, DECSTR) == Control(use8Bit, CSI) + "!p"
    ensures Text(use8Bit, SCOSC) == Control(use8Bit, CSI) + "s"
    ensures Text(use8Bit, SCORC) == Control(use8Bit, CSI) + "u"
    ensures Text(use8Bit, RIS) == [ESC, 'c'] && Text(use8Bit, DECALN) == [ESC, '#', '8']
    ensures Text(use8Bit, DECSC) == [ESC, '7'] && Text(use8Bit, DECRC) == [ESC, '8']
    ensures Text(use8Bit, DECBI) == [ESC, '6'] && Text(use8Bit, DECFI) == [ESC, '9']
  {
    CsiPlain(use8Bit, DECSTR);
    CsiPlain(use8Bit, SCOSC);
    CsiPlain(use8Bit, SCORC);
  }

  /** DECSET, DECRESET and (from VT level 3) DECRQM pass the mode number
      through: the terminal's parser reads back exactly that number. */
  lemma ModeRoundTrip(use8Bit: bool, cfg: Config, m: nat, dec: bool, rest: string)
    ensures var text := Text(use8Bit, DECSET(PInt(m)));
      ReadCSISpec(text + rest, 0, "h", Some("?")) == Reply(Ok([Some(m)]), |text|)
    ensures var text := Text(use8Bit, DECRESET(PInt(m)));
      ReadCSISpec(text + rest, 0, "l", Some("?")) == Reply(Ok([Some(m)]), |text|)
    ensures cfg.vtLevel >= 3 ==> var text := Text(use8Bit, DECRQM(cfg, PInt(m), dec).value);
      ReadCSISpec(text + rest, 0, "$p", PrefixOption(if dec then "?" else "")) == Reply(Ok([Some(m)]), |text|)
  {
    assert NatParams([m]) + Defaults(0) == [PInt(m)];
    assert Somes([m]) == [Some(m)];
    assert "" + "h" == "h" && "" + "l" == "l" && "$" + "p" == "$p";
    CsiRoundTrip(use8Bit, DECSET(PInt(m)), [m], 0, rest);
    CsiRoundTrip(use8Bit, DECRESET(PInt(m)), [m], 0, rest);
    if cfg.vtLevel >= 3 {
      CsiRoundTrip(use8Bit, DECRQM(cfg, PInt(m), dec).value, [m], 0, rest);
    }
  }

  /** The rectangle operations pass their corners through in order. */
  lemma RectangleRoundTrip(use8Bit: bool, cfg: Config, t: nat, l: nat, b: nat, r: nat, rest: string)
    ensures var text := Text(use8Bit, DECERA(PInt(t), PInt(l), PInt(b), PInt(r)));
      ReadCSISpec(text + rest, 0, "$z", None) == Reply(Ok([Some(t), Some(l), Some(b), Some(r)]), |text|)
    ensures cfg.vtLevel >= 4 ==> var text := Text(use8Bit, DECSERA(cfg, PInt(t), PInt(l), PInt(b), PInt(r)).value);
      ReadCSISpec(text + rest, 0, "${", None) == Reply(Ok([Some(t), Some(l), Some(b), Some(r)]), |text|)
  {
    var ns := [t, l, b, r];
    assert NatParams(ns) + Defaults(0) == [PInt(t), PInt(l), PInt(b), PInt(r)];
    assert Somes(ns) == [Some(t), Some(l), Some(b), Some(r)];
    assert "$" + "z" == "$z" && "$" + "{" == "${";
    CsiRoundTrip(use8Bit, DECERA(PInt(t), PInt(l), PInt(b), PInt(r)), ns, 0, rest);
    if cfg.vtLevel >= 4 {
      CsiRoundTrip(use8Bit, DECSERA(cfg, PInt(t), PInt(l), PInt(b), PInt(r)).value, ns, 0, rest);
    }
  }

  /** DECFRA passes the fill character, then the corners, through in order. */
  lemma FillRoundTrip(use8Bit: bool, ch: nat, t: nat, l: nat, b: nat, r: nat, rest: string)
    ensures var text := Text(use8Bit, DECFRA(PInt(ch), PInt(t), PInt(l), PInt(b), PInt(r)));
      ReadCSISpec(text + rest, 0, "$x", None) == Reply(Ok([Some(ch), Some(t), Some(l), Some(b), Some(r)]), |text|)
  {
    var ns := [ch, t, l, b, r];
    assert NatParams(ns) + Defaults(0) == [PInt(ch), PInt(t), PInt(l), PInt(b), PInt(r)];
    assert Somes(ns) == [Some(ch), Some(t), Some(l), Some(b), Some(r)];
    assert "$" + "x" == "$x";
    CsiRoundTrip(use8Bit, DECFRA(PInt(ch), PInt(t), PInt(l), PInt(b), PInt(r)), ns, 0, rest);
  }

  /** DECSLRM (from VT level 4) passes the left and right margins through
      in order. */
  lemma MarginsRoundTrip(use8Bit: bool, cfg: Config, l: nat, r: nat, rest: string)
    requires cfg.vtLevel >= 4
    ensures var text := Text(use8Bit, DECSLRM(cfg, PInt(l), PInt(r)).value);
      ReadCSISpec(text + rest, 0, "s", None) == Reply(Ok([Some(l), Some(r)]), |text|)
  {
    var ns := [l, r];
    assert NatParams(ns) + Defaults(0) == [PInt(l), PInt(r)];
    assert Somes(ns) == [Some(l), Some(r)];
    assert "" + "s" == "s";
    CsiRoundTrip(use8Bit, DECSLRM(cfg, PInt(l), PInt(r)).value, ns, 0, rest);
  }

  /** SGR passes its numeric attributes through, and trailing defaults are
      not sent. */
  lemma SgrRoundTrip(use8Bit: bool, ns: seq<nat>, k: nat, rest: string)
    requires |ns| > 0
    ensures var text := Text(use8Bit, SGR(NatParams(ns) + Defaults(k)));
      ReadCSISpec(text + rest, 0, "m", None) == Reply(Ok(Somes(ns)), |text|)
  {
    assert "" + "m" == "m";
    CsiRoundTrip(use8Bit, SGR(NatParams(ns) + Defaults(k)), ns, k, rest);
  }

  /** A window title without ESC, sent in 7-bit mode with ST, is what a
      reader expecting the prefix "2" finds after it (behind the `;`). */
  lemma TitleRoundTrip(title: string, suppress: bool, rest: string)
    requires ESC !in title
    ensures var text := Text(false, ChangeWindowTitle(title, false, suppress));
      ReadOSCSpec(false, text + rest, 0, "2") == Reply(Ok(";" + title), |text|)
  {
    var params := [PStr("2"), PStr(title)];
    assert StrAll(params) == ["2", title];
    assert Join(";", ["2", title]) == "2" + (";" + title);
    assert ESC !in ";" + title;
    UnterminatedWithoutLead(";" + title, [ESC, '\\']);
    ReadOSCRoundTrip(params, "2", ";" + title, rest);
  }

  // ---------------------------------------------------------------------
  // Colours

  /** ChangeColor: OSC 4 and the arguments. The report flag is computed
      before the arguments are added, so it is never set, even for a "?"
      query. */
  function ChangeColor(args: seq<Param>): (c: Cmd)
    ensures c.Osc? && c.params == [PInt(4)] + args && Mirrored(c)
  {
    Osc([PInt(4)] + args, false, false)
  }

  /** ChangeDynamicColor: OSC with the arguments alone, likewise mirrored. */
  function ChangeDynamicColor(args: seq<Param>): (c: Cmd)
    ensures c.Osc? && c.params == args && Mirrored(c)
  {
    Osc(args, false, false)
  }

  /** The leading parameter of ChangeSpecialColor (4) and
      ChangeSpecialColor2 (5): dropped when the first argument, as an int,
      is 10 or more; int() of that argument may raise. */
  function SpecialColorHead(mode: int, args: seq<Param>): (r: Result<seq<Param>>)
    ensures |args| == 0 ==> r == Ok([PInt(mode)])
    ensures |args| > 0 ==> (r.Err? <==> PyInt(args[0]).Err?)
    ensures |args| > 0 && r.Ok? ==> (r.value == [] <==> PyInt(args[0]).value >= 10)
    ensures r.Ok? && r.value != [] ==> r.value == [PInt(mode)]
  {
    if |args| > 0 then
      var first :- PyInt(args[0]);
      if first >= 10 then Ok([]) else Ok([PInt(mode)])
    else Ok([PInt(mode)])
  }

  /** ChangeSpecialColor2: OSC 5 (or just the arguments), never a report. */
  function ChangeSpecialColor2(args: seq<Param>): (r: Result<Cmd>)
    ensures r.Ok? ==> Mirrored(r.value) && r.value.Osc? && |r.value.params| >= 1
  {
    var head :- SpecialColorHead(5, args);
    Ok(Osc(head + args, false, false))
  }

  /** A colour number below 9 refers to a special colour, which follows the
      indexed colours: it is offset by their count. */
  predicate Offsets(p: Param) {
    PyInt(p).Ok? && PyInt(p).value < 9
  }

  /** One parameter after the offsetting, given the colour count `n`. */
  function Offset(p: Param, n: int): (q: Param)
    ensures !Offsets(p) ==> q == p
    ensures Offsets(p) ==> q == PStr(IntToString(PyInt(p).value + n))
  {
    if Offsets(p) then PStr(IntToString(PyInt(p).value + n)) else p
  }

  /** Whether any parameter from index `p` on is offset. */
  predicate NeedsColors(params: seq<Param>, p: nat) {
    exists k :: p <= k < |params| && Offsets(params[k])
  }

  /** The parameter list once the loop has run from index `p` with colour
      count `n`: the parameters before `p` kept, every later one offset. */
  function Rewritten(params: seq<Param>, p: nat, n: int): (r: seq<Param>)
    ensures |r| == |params|
    ensures forall k :: 0 <= k < |params| && k < p ==> r[k] == params[k]
    ensures forall k :: p <= k < |params| ==> r[k] == Offset(params[k], n)
  {
    seq(|params|, k requires 0 <= k < |params| => if k < p then params[k] else Offset(params[k], n))
  }

  /** ChangeSpecialColor's loop from index `p`: each parameter that is an
      int below 9 becomes the text of that int plus GetIndexedColors(). */
  function OffsetFrom(st: SessionState, params: seq<Param>, p: nat): (r: Step<seq<Param>>)
    requires st.Valid()
    ensures r.result.Ok? && r.state.Valid() && |r.result.value| == |params|
    decreases |params| - p
  {
    if p >= |params| then Step(Ok(params), st)
    else if Offsets(params[p]) then
      var c := IndexedColorsStep(st);
      OffsetFrom(c.state, params[p := PStr(IntToString(PyInt(params[p]).value + c.result.value))], p + 1)
    else OffsetFrom(st, params, p + 1)
  }

  /** A loop step that offsets (or keeps) parameter `p` leaves the same
      list to finish from `p + 1`. */
  lemma RewriteStep(params: seq<Param>, p: nat, n: int)
    requires p < |params|
    ensures Rewritten(params[p := Offset(params[p], n)], p + 1, n) == Rewritten(params, p, n)
  {
  }

  /** Once the colour count is cached the loop sends no query: it offsets
      every parameter from `p` on by the cached count and leaves the rest
      alone. */
  lemma {:induction false} OffsetCached(st: SessionState, params: seq<Param>, p: nat)
    requires st.Valid() && st.numIndexedColors > 0 && p <= |params|
    ensures OffsetFrom(st, params, p) == Step(Ok(Rewritten(params, p, st.numIndexedColors)), st)
    decreases |params| - p
  {
    var n := st.numIndexedColors;
    if p < |params| {
      RewriteStep(params, p, n);
      if Offsets(params[p]) {
        OffsetCached(st, params[p := Offset(params[p], n)], p + 1);
      } else {
        assert params[p := Offset(params[p], n)] == params;
        OffsetCached(st, params, p + 1);
      }
    } else {
      assert Rewritten(params, p, n) == params;
    }
  }

  /** The loop offsets every parameter from `p` on by the one colour count
      the first GetIndexedColors call fixes, leaves the others alone, and
      queries the terminal only if some parameter needs it. */
  lemma {:induction false} OffsetFromSpec(st: SessionState, params: seq<Param>, p: nat)
    requires st.Valid() && p <= |params|
    ensures var c := IndexedColorsStep(st);
      OffsetFrom(st, params, p) ==
        Step(Ok(Rewritten(params, p, c.result.value)), if NeedsColors(params, p) then c.state else st)
    decreases |params| - p, 1
  {
    if p < |params| {
      if Offsets(params[p]) {
        OffsetFirst(st, params, p);
      } else {
        OffsetSkip(st, params, p);
      }
    } else {
      assert Rewritten(params, p, IndexedColorsStep(st).result.value) == params;
    }
  }

  /** A parameter that needs no offset is kept and needs no query. */
  lemma {:induction false} OffsetSkip(st: SessionState, params: seq<Param>, p: nat)
    requires st.Valid() && p < |params| && !Offsets(params[p])
    ensures var c := IndexedColorsStep(st);
      OffsetFrom(st, params, p) ==
        Step(Ok(Rewritten(params, p, c.result.value)), if NeedsColors(params, p) then c.state else st)
    decreases |params| - p, 0
  {
    var n := IndexedColorsStep(st).result.value;
    OffsetFromSpec(st, params, p + 1);
    RewriteStep(params, p, n);
    assert params[p := Offset(params[p], n)] == params;
    assert NeedsColors(params, p) <==> NeedsColors(params, p + 1) by {
      if NeedsColors(params, p) {
        var k :| p <= k < |params| && Offsets(params[k]);
        assert k != p;
      }
    }
  }

  /** The first parameter that needs the colour count fixes it for all the
      later ones. */
  lemma OffsetFirst(st: SessionState, params: seq<Param>, p: nat)
    requires st.Valid() && p < |params| && Offsets(params[p])
    ensures var c := IndexedColorsStep(st);
      OffsetFrom(st, params, p) == Step(Ok(Rewritten(params, p, c.result.value)), c.state)
    ensures NeedsColors(params, p)
  {
    var c := IndexedColorsStep(st);
    ColorsCached(st);
    var n := c.result.value;
    assert c.state.numIndexedColors == n;
    OffsetCached(c.state, params[p := Offset(params[p], n)], p + 1);
    RewriteStep(params, p, n);
  }

  /** ChangeSpecialColor: OSC 4 (unless the first argument is 10 or more),
      the arguments with every special colour number offset by the indexed
      colour count, never a report. */
  function ChangeSpecialColorStep(st: SessionState, args: seq<Param>): (r: Step<()>)
    requires st.Valid()
    ensures r.state.Valid()
    ensures SpecialColorHead(4, args).Err? ==> r == Step(Err(SpecialColorHead(4, args).error), st)
  {
    match SpecialColorHead(4, args)
    case Err(e) => Step(Err(e), st)
    case Ok(head) =>
      var o := OffsetFrom(st, head + args, 1);
      SendStep(o.state, Osc(o.result.value, false, false))
  }

  /** ChangeSpecialColor on the live session: the loop rewrites the
      parameter list in place. */
  method ChangeSpecialColor(s: Session, args: seq<Param>) returns (r: Result<()>)
    requires s.Valid()
    modifies s
    ensures s.Valid()
    ensures Step(r, s.State()) == ChangeSpecialColorStep(old(s.State()), args)
  {
    var head := SpecialColorHead(4, args);
    if head.Err? {
      return Err(head.error);
    }
    var params := head.value + args;
    ghost var start := params;
    for p := 1 to |params|
      invariant s.Valid() && |params| == |start|
      invariant OffsetFrom(s.State(), params, p) == OffsetFrom(old(s.State()), start, 1)
    {
      ghost var before := s.State();
      ghost var current := params;
      if Offsets(params[p]) {
        var q := PyInt(params[p]).value;
        var n := GetIndexedColors(s);
        params := params[p := PStr(IntToString(q + n))];
        assert Step(Ok(n), s.State()) == IndexedColorsStep(before);
      }
      assert OffsetFrom(before, current, p) == OffsetFrom(s.State(), params, p + 1);
    }
    assert OffsetFrom(s.State(), params, |params|) == Step(Ok(params), s.State());
    r := Send(s, Osc(params, false, false));
  }

  /** What ChangeSpecialColor sends: the leading 4 dropped exactly when
      the first argument is 10 or more, every later parameter that is a
      number below 9 offset by the colour count, nothing else changed; the
      terminal is asked for the count only when some parameter needs it. */
  lemma ChangeSpecialColorSends(st: SessionState, args: seq<Param>)
    requires st.Valid() && SpecialColorHead(4, args).Ok?
    ensures var params := SpecialColorHead(4, args).value + args;
      var n := IndexedColorsStep(st).result.value;
      var before := if NeedsColors(params, 1) then IndexedColorsStep(st).state else st;
      ChangeSpecialColorStep(st, args) == SendStep(before, Osc(Rewritten(params, 1, n), false, false))
  {
    OffsetFromSpec(st, SpecialColorHead(4, args).value + args, 1);
  }

  /** The test's query of two special colours, ChangeSpecialColor("0",
      "?", "1", "?"), with a colour count of `n` already known: OSC 4 ; n ;
      ? ; n+1 ; ? ST, and no query. Stated for any arguments that int()
      reads as 0 and 1 and one it rejects; PyIntExamples shows that "0",
      "1" and "?" are such arguments. */
  lemma SpecialColorQuery(st: SessionState, n: int, zero: Param, query: Param, one: Param)
    requires st.Valid() && st.numIndexedColors == n > 0
    requires PyInt(zero) == Ok(0) && PyInt(one) == Ok(1) && PyInt(query).Err?
    ensures ChangeSpecialColorStep(st, [zero, query, one, query]) ==
      SendStep(st, Osc([PInt(4), PStr(IntToString(n)), query, PStr(IntToString(n + 1)), query], false, false))
  {
    var args := [zero, query, one, query];
    var params := [PInt(4)] + args;
    assert params == [PInt(4), zero, query, one, query];
    assert SpecialColorHead(4, args) == Ok([PInt(4)]);
    QueryOffsets(st, n, params, zero, query, one);
    var sent := [PInt(4), PStr(IntToString(n)), query, PStr(IntToString(n + 1)), query];
    var o := OffsetFrom(st, params, 1);
    assert o.state == st && o.result.value == sent;
    assert ChangeSpecialColorStep(st, args) == SendStep(o.state, Osc(o.result.value, false, false));
  }

  lemma QueryOffsets(st: SessionState, n: int, params: seq<Param>, zero: Param, query: Param, one: Param)
    requires st.Valid() && st.numIndexedColors == n > 0
    requires PyInt(zero) == Ok(0) && PyInt(one) == Ok(1) && PyInt(query).Err?
    requires params == [PInt(4), zero, query, one, query]
    ensures OffsetFrom(st, params, 1) ==
      Step(Ok([PInt(4), PStr(IntToString(n)), query, PStr(IntToString(n + 1)), query]), st)
  {
    OffsetCached(st, params, 1);
    QueryTail(n, params, zero, query, one);
    OffsetBy(zero, 0, n);
    OffsetBy(one, 1, n);
  }

  lemma QueryTail(n: int, params: seq<Param>, zero: Param, query: Param, one: Param)
    requires PyInt(query).Err?
    requires params == [PInt(4), zero, query, one, query]
    ensures Rewritten(params, 1, n) == [PInt(4), Offset(zero, n), query, Offset(one, n), query]
  {
    KeptAsIs(query, n);
    var r := Rewritten(params, 1, n);
    var e := [PInt(4), Offset(zero, n), query, Offset(one, n), query];
    forall k | 0 <= k < 5 ensures r[k] == e[k] {
      if k > 0 { assert r[k] == Offset(params[k], n); }
    }
  }

  lemma OffsetBy(p: Param, v: int, n: int)
    requires PyInt(p) == Ok(v) && v < 9
    ensures Offset(p, n) == PStr(IntToString(v + n))
  {
  }

  lemma KeptAsIs(p: Param, n: int)
    requires PyInt(p).Err?
    ensures Offset(p, n) == p
  {
  }

  lemma PyIntExamples()
    ensures PyInt(PStr("0")) == Ok(0) && PyInt(PStr("1")) == Ok(1) && PyInt(PStr("?")).Err?
  {
    ParseZero();
    ParseOne();
    ParseQuery();
  }

  lemma ParseZero()
    ensures ParseInt("0") == Some(0)
  {
    ParseIntOfIntToString(0);
    assert IntToString(0) == "0";
  }

  lemma ParseOne()
    ensures ParseInt("1") == Some(1)
  {
    ParseIntOfIntToString(1);
    assert IntToString(1) == "1";
  }

  lemma ParseQuery()
    ensures ParseInt("?") == None
  {
    StripQuery();
    DecimalQuery();
  }

  lemma StripQuery()
    ensures Strip("?") == "?"
  {
  }

  lemma DecimalQuery()
    ensures ParseDecimal("?") == None
  {
    assert "?"[0] == '?';
  }

}