/** The sequence codec (escio): C1 controls in their 7-bit and 8-bit forms,
    the serialisation of control sequences and control strings, the session
    that writes to the terminal and reads its replies, and the readers that
    rebuild CSI parameter lists and DCS/OSC string bodies.

    Each state-changing operation has a specification: a function on the
    session's abstract value (SessionState) or, for the readers, on the input
    and the read position. The methods of Session are proved to compute
    exactly what these functions say. */
module EscIo {
  import opened Types
  import opened Numerals
  import opened Esc

  // ---------------------------------------------------------------------
  // C1 controls

  /** The C1 control functions the tester sends or expects. */
  datatype C1 = IND | NEL | HTS | RI | SS2 | SS3 | DCS | SPA | EPA | SOS | DECID | CSI | ST | OSC | PM | APC
  {
    /** The control's 8-bit code. */
    function Code(): (code: int)
      ensures IsC1Code(code)
    {
      match this
      case IND => 0x84
      case NEL => 0x85
      case HTS => 0x88
      case RI => 0x8D
      case SS2 => 0x8E
      case SS3 => 0x8F
      case DCS => 0x90
      case SPA => 0x96
      case EPA => 0x97
      case SOS => 0x98
      case DECID => 0x9A
      case CSI => 0x9B
      case ST => 0x9C
      case OSC => 0x9D
      case PM => 0x9E
      case APC => 0x9F
    }
  }

  predicate IsC1Code(code: int) { 0x80 <= code <= 0x9F }

  /** ESC followed by one more character. */
  predicate Is7BitControl(c: string) { |c| == 2 && c[0] == ESC }

  /** One character in the C1 range. */
  predicate Is8BitControl(c: string) { |c| == 1 && IsC1Code(c[0] as int) }

  /** The C1 code a control string stands for, in either representation:
      the code itself, or ESC followed by the code minus 0x40. */
  function C1CodeOf(s: string): Option<int> {
    if Is8BitControl(s) then Some(s[0] as int)
    else if Is7BitControl(s) && 0x40 <= s[1] as int <= 0x5F then Some(s[1] as int + 0x40)
    else None
  }

  /** CmdChar: the representation of a C1 code that the current mode selects. */
  function CmdChar(use8Bit: bool, code: int): (s: string)
    requires IsC1Code(code)
    ensures use8Bit <==> Is8BitControl(s)
    ensures !use8Bit <==> Is7BitControl(s)
    ensures C1CodeOf(s) == Some(code)
  {
    if use8Bit then [code as char] else [ESC, (code - 0x40) as char]
  }

  /** IND(), NEL(), ..., APC(): one C1 control in the current mode. */
  function Control(use8Bit: bool, f: C1): string {
    CmdChar(use8Bit, f.Code())
  }

  /** The 7-bit introducers and terminator the readers look for. */
  lemma SevenBitForms()
    ensures Control(false, CSI) == [ESC, '['] && Control(false, ST) == [ESC, '\\']
    ensures Control(false, OSC) == [ESC, ']'] && Control(false, DCS) == [ESC, 'P']
    ensures Control(true, CSI) == [0x9B as char] && Control(true, ST) == [0x9C as char]
    ensures Control(true, OSC) == [0x9D as char] && Control(true, DCS) == [0x90 as char]
  {
  }

  /** Every C1 control reads back as its own code in both modes, so the two
      modes denote the same control and distinct controls never collide. */
  lemma ControlsDecode(use8Bit: bool, f: C1, g: C1)
    ensures C1CodeOf(Control(use8Bit, f)) == Some(f.Code())
    ensures Control(use8Bit, f) == Control(use8Bit, g) <==> f == g
  {
    if Control(use8Bit, f) == Control(use8Bit, g) {
      assert f.Code() == g.Code();
    }
  }

  // ---------------------------------------------------------------------
  // Characters

  /** Every character fits in one byte (the Latin-1 codec's domain). */
  predicate Latin1(s: string) {
    forall i :: 0 <= i < |s| ==> s[i] as int < 256
  }

  /** Python's str.isdigit on the Latin-1 characters read() can produce: the
      ASCII digits and the superscripts two, three and one. */
  predicate IsUnicodeDigit(c: char) {
    IsDigit(c) || c == '²' || c == '³' || c == '¹'
  }

  predicate StartsWith(s: string, t: string) { |t| <= |s| && s[..|t|] == t }

  predicate EndsWith(s: string, t: string) { |t| <= |s| && s[|s| - |t|..] == t }

  /** Python's s[:-k]: everything but the last k characters (nothing when
      s is shorter). */
  function DropLast(s: string, k: nat): (r: string)
    ensures |r| == if |s| >= k then |s| - k else 0
  {
    if |s| >= k then s[..|s| - k] else []
  }

  // ---------------------------------------------------------------------
  // Parameters and their serialisation

  /** A parameter as callers pass it: Python's None, an int or a string. */
  datatype Param = PNone | PInt(i: int) | PStr(s: string)

  /** Python's str() of a parameter. */
  function Str(p: Param): string {
    match p
    case PNone => "None"
    case PInt(i) => IntToString(i)
    case PStr(s) => s
  }

  function StrAll(params: seq<Param>): (r: seq<string>)
    ensures |r| == |params| && forall i :: 0 <= i < |params| ==> r[i] == Str(params[i])
  {
    seq(|params|, i requires 0 <= i < |params| => Str(params[i]))
  }

  /** A CSI parameter: None is the empty (default) field. */
  function StringifyCSIParam(p: Param): string {
    if p.PNone? then "" else Str(p)
  }

  function StringifyAll(params: seq<Param>): (r: seq<string>)
    ensures |r| == |params| && forall i :: 0 <= i < |params| ==> r[i] == StringifyCSIParam(params[i])
  {
    seq(|params|, i requires 0 <= i < |params| => StringifyCSIParam(params[i]))
  }

  /** Python's sep.join(ss). */
  function Join(sep: string, ss: seq<string>): string {
    if ss == [] then "" else if |ss| == 1 then ss[0] else ss[0] + sep + Join(sep, ss[1..])
  }

  /** The list without its run of trailing empty strings: a prefix of the
      input that is empty or ends in a non-empty string, and everything cut
      off is empty. */
  function TrimTrailingEmpty(ss: seq<string>): (r: seq<string>)
    ensures |r| <= |ss| && r == ss[..|r|]
    ensures r == [] || r[|r| - 1] != ""
    ensures forall i :: |r| <= i < |ss| ==> ss[i] == ""
  {
    if |ss| > 0 && ss[|ss| - 1] == "" then TrimTrailingEmpty(ss[..|ss| - 1]) else ss
  }

  /** The text WriteCSI sends: introducer, prefix, the `;`-joined parameters
      without trailing defaults, intermediate and final. */
  function CsiSequence(use8Bit: bool, prefix: string, params: seq<Param>, intermediate: string, final: string): string {
    Control(use8Bit, CSI) + prefix + Join(";", TrimTrailingEmpty(StringifyAll(params))) + intermediate + final
  }

  function Terminator(use8Bit: bool, bel: bool): string {
    if bel then [BEL] else Control(use8Bit, ST)
  }

  /** The text WriteOSC sends. */
  function OscSequence(use8Bit: bool, params: seq<Param>, bel: bool): string {
    Control(use8Bit, OSC) + Join(";", StrAll(params)) + Terminator(use8Bit, bel)
  }

  /** The text WriteAPC sends: the parameters are concatenated. */
  function ApcSequence(use8Bit: bool, params: seq<Param>, bel: bool): string {
    Control(use8Bit, APC) + Join("", StrAll(params)) + Terminator(use8Bit, bel)
  }

  /** The text WriteDCS sends. */
  function DcsSequence(use8Bit: bool, introducer: string, params: string): string {
    Control(use8Bit, DCS) + introducer + params + Control(use8Bit, ST)
  }

  // ---------------------------------------------------------------------
  // The session's abstract value and the specification of writing

  /** Everything the protocol layer keeps between calls: the 8-bit mode flag,
      what was sent to the terminal, the optional side-channel recording,
      what the terminal will send and how much of it was read, the next
      checksum request id and the cached number of indexed colours. */
  datatype SessionState = SessionState(
    use8Bit: bool,
    out: string,
    side: Option<string>,
    input: string,
    pos: nat,
    nextId: nat,
    numIndexedColors: int)
  {
    ghost predicate Valid() { pos <= |input| && Latin1(input) }
  }

  /** The outcome of an operation and the state it leaves. */
  datatype Step<+T> = Step(result: Result<T>, state: SessionState)

  /** Write: the text goes to the terminal, and to the side channel when
      that is allowed and one is attached; a character outside Latin-1
      fails before anything is written. */
  function WriteStep(st: SessionState, s: string, sideChannelOk: bool): (r: Step<()>)
    ensures r.result.Ok? <==> Latin1(s)
    ensures r.result.Ok? ==> r.state.out == st.out + s
    ensures r.result.Ok? && sideChannelOk && st.side.Some? ==> r.state.side == Some(st.side.value + s)
    ensures !(r.result.Ok? && sideChannelOk) ==> r.state.side == st.side
    ensures r.state.(out := st.out, side := st.side) == st
  {
    if !Latin1(s) then Step(Err(UnicodeEncodeError), st)
    else
      var side := if sideChannelOk && st.side.Some? then Some(st.side.value + s) else st.side;
      Step(Ok(()), st.(out := st.out + s, side := side))
  }

  function WriteCSIStep(st: SessionState, prefix: string, params: seq<Param>, intermediate: string, final: string, requestsReport: bool): Step<()> {
    if |final| == 0 then Step(Err(InternalError(EmptyFinal)), st)
    else WriteStep(st, CsiSequence(st.use8Bit, prefix, params, intermediate, final), !requestsReport)
  }

  function WriteOSCStep(st: SessionState, params: seq<Param>, bel: bool, requestsReport: bool): Step<()> {
    WriteStep(st, OscSequence(st.use8Bit, params, bel), !requestsReport)
  }

  function WriteAPCStep(st: SessionState, params: seq<Param>, bel: bool, requestsReport: bool): Step<()> {
    WriteStep(st, ApcSequence(st.use8Bit, params, bel), !requestsReport)
  }

  function WriteDCSStep(st: SessionState, introducer: string, params: string): Step<()> {
    WriteStep(st, DcsSequence(st.use8Bit, introducer, params), true)
  }

  // ---------------------------------------------------------------------
  // The specification of reading

  /** What a reader returns and how far it read. */
  datatype Reply<+T> = Reply(result: Result<T>, pos: nat)

  /** A reader's effect on the session: only the read position moves. */
  function Reading<T>(st: SessionState, r: Reply<T>): Step<T> {
    Step(r.result, st.(pos := r.pos))
  }

  /** read(n): n characters, or a timeout after everything left was taken. */
  function ReadSpec(input: string, pos: nat, n: nat): Reply<string>
    requires pos <= |input|
  {
    if pos + n <= |input| then Reply(Ok(input[pos..pos + n]), pos + n)
    else Reply(Err(InternalError(Timeout)), |input|)
  }

  /** AssertCharsEqual. */
  function AssertCharsEqual(c: char, e: char): Result<()> {
    if c != e then Err(InternalError(CharMismatch(c, e))) else Ok(())
  }

  /** ReadOrDie on each character of `es` in turn: succeeds exactly when
      the input continues with `es`, and then has read exactly `es`. */
  function ExpectSpec(input: string, pos: nat, es: string): (r: Reply<()>)
    requires pos <= |input|
    ensures pos <= r.pos <= |input|
    ensures r.result.Ok? <==> pos + |es| <= |input| && input[pos..pos + |es|] == es
    ensures r.result.Ok? ==> r.pos == pos + |es|
    decreases |es|
  {
    if es == [] then Reply(Ok(()), pos)
    else if pos == |input| then Reply(Err(InternalError(Timeout)), pos)
    else if input[pos] != es[0] then
      assert pos + |es| <= |input| ==> input[pos..pos + |es|][0] != es[0];
      Reply(Err(InternalError(CharMismatch(input[pos], es[0]))), pos + 1)
    else
      var r := ExpectSpec(input, pos + 1, es[1..]);
      assert pos + |es| <= |input| ==> input[pos..pos + |es|] == [input[pos]] + input[pos + 1..pos + 1 + |es[1..]|];
      assert es == [es[0]] + es[1..];
      r
  }

  /** Read one character at a time, from `start`, until what was read ends
      with `term`; `i` is how far the reading has got. What it returns ends
      with `term`; it times out when the input runs out first. */
  function ScanSpec(term: string, input: string, start: nat, i: nat): (r: Reply<string>)
    requires start <= i <= |input|
    ensures i <= r.pos <= |input|
    ensures r.result.Ok? ==> r.result.value == input[start..r.pos] && EndsWith(r.result.value, term)
    ensures r.result.Err? ==> r.pos == |input|
    decreases |input| - i
  {
    if EndsWith(input[start..i], term) then Reply(Ok(input[start..i]), i)
    else if i == |input| then Reply(Err(InternalError(Timeout)), i)
    else ScanSpec(term, input, start, i + 1)
  }

  /** ReadOSC: only the 7-bit introducer ESC ], then the expected prefix,
      then everything up to the current mode's ST, of which the last two
      characters are dropped. */
  function ReadOSCSpec(use8Bit: bool, input: string, pos: nat, expectedPrefix: string): (r: Reply<string>)
    requires pos <= |input|
    ensures pos <= r.pos <= |input|
  {
    var h := ExpectSpec(input, pos, [ESC, ']'] + expectedPrefix);
    if h.result.Err? then Reply(Err(h.result.error), h.pos)
    else
      var b := ScanSpec(Control(use8Bit, ST), input, h.pos, h.pos);
      if b.result.Err? then Reply(Err(b.result.error), b.pos)
      else Reply(Ok(DropLast(b.result.value, 2)), b.pos)
  }

  /** The introducer of a reply: ESC and the control's 7-bit final, or the
      8-bit control itself. */
  function IntroSpec(input: string, pos: nat, f: C1): (r: Reply<()>)
    requires pos <= |input|
    ensures pos <= r.pos <= |input|
    ensures r.result.Ok? <==>
      (pos < |input| && (input[pos] as int == f.Code() || (pos + 2 <= |input| && input[pos..pos + 2] == Control(false, f))))
    ensures r.result.Ok? ==> r.pos == pos + if input[pos] == ESC then 2 else 1
  {
    if pos == |input| then Reply(Err(InternalError(Timeout)), pos)
    else if input[pos] == ESC then
      var r := ExpectSpec(input, pos + 1, [Control(false, f)[1]]);
      assert r.result.Ok? ==> input[pos..pos + 2] == [input[pos]] + input[pos + 1..pos + 2];
      r
    else if input[pos] as int != f.Code() then Reply(Err(InternalError(NotIntroducer(input[pos]))), pos + 1)
    else Reply(Ok(()), pos + 1)
  }

  /** ReadDCS after the introducer: up to the current mode's ST, dropping one
      character when the last is the 8-bit ST and two otherwise. */
  function DcsBodySpec(use8Bit: bool, input: string, start: nat): (r: Reply<string>)
    requires start <= |input|
    ensures start <= r.pos <= |input|
  {
    var b := ScanSpec(Control(use8Bit, ST), input, start, start);
    if b.result.Err? then Reply(Err(b.result.error), b.pos)
    else
      var s := b.result.value;
      Reply(Ok(if |s| > 0 && s[|s| - 1] as int == 0x9C then s[..|s| - 1] else DropLast(s, 2)), b.pos)
  }

  /** ReadDCS: ESC P or the 8-bit DCS, then the body. */
  function ReadDCSSpec(use8Bit: bool, input: string, pos: nat): (r: Reply<string>)
    requires pos <= |input|
    ensures pos <= r.pos <= |input|
  {
    var h := IntroSpec(input, pos, DCS);
    if h.result.Err? then Reply(Err(h.result.error), h.pos)
    else DcsBodySpec(use8Bit, input, h.pos)
  }

  /** The parameters ReadCSI returns: at least one, and only the last may be
      None (an empty field anywhere else raises). */
  predicate CsiShape(ps: seq<Option<nat>>) {
    |ps| > 0 && forall j :: 0 <= j < |ps| - 1 ==> ps[j].Some?
  }

  /** ReadCSI: ESC [ or the 8-bit CSI, then the fields. */
  function ReadCSISpec(input: string, pos: nat, expectedFinal: string, expectedPrefix: Option<string>): (r: Reply<seq<Option<nat>>>)
    requires pos <= |input|
    ensures pos <= r.pos <= |input|
  {
    var h := IntroSpec(input, pos, CSI);
    if h.result.Err? then Reply(Err(h.result.error), h.pos)
    else CsiParamsSpec(input, h.pos, expectedFinal, expectedPrefix)
  }

  /** ReadCSI after the introducer: a first character that is neither a
      digit nor `;` must be the expected prefix and is skipped. */
  function CsiParamsSpec(input: string, p: nat, expectedFinal: string, expectedPrefix: Option<string>): (r: Reply<seq<Option<nat>>>)
    requires p <= |input|
    ensures p <= r.pos <= |input|
  {
    if p == |input| then Reply(Err(InternalError(Timeout)), p)
    else if !IsUnicodeDigit(input[p]) && input[p] != ';' then
      if expectedPrefix == Some([input[p]]) then
        if p + 1 == |input| then Reply(Err(InternalError(Timeout)), p + 1)
        else CsiFieldsSpec(input, p + 1, [], [], expectedFinal)
      else Reply(Err(InternalError(UnexpectedChar(input[p]))), p + 1)
    else CsiFieldsSpec(input, p, [], [], expectedFinal)
  }

  /** ReadCSI's parameter loop; `input[i]` has just been read, `params` holds
      the closed fields and `current` the digits of the open one. A `;`
      closes a field with int(), which fails on an empty one; any other
      non-digit starts the final and closes the last field, empty as None.
      The result extends `params` by at least one field, and only the last
      new field may be None. */
  function CsiFieldsSpec(input: string, i: nat, params: seq<Option<nat>>, current: string, expectedFinal: string): (r: Reply<seq<Option<nat>>>)
    requires i < |input| && DigitsIn(current, 10)
    ensures i < r.pos <= |input|
    decreases |input| - i
  {
    var c := input[i];
    if c == ';' then
      if current == [] then Reply(Err(ValueError), i + 1)
      else if i + 1 == |input| then Reply(Err(InternalError(Timeout)), i + 1)
      else
        CsiFieldsSpec(input, i + 1, params + [Some(ValueOf(current, 10))], [], expectedFinal)
    else if IsDigit(c) then
      if i + 1 == |input| then Reply(Err(InternalError(Timeout)), i + 1)
      else CsiFieldsSpec(input, i + 1, params, current + [c], expectedFinal)
    else
      var f := FinalSpec(input, i, expectedFinal);
      if f.result.Err? then Reply(Err(f.result.error), f.pos)
      else Reply(Ok(params + [if current == [] then None else Some(ValueOf(current, 10))]), f.pos)
  }

  /** The final characters, matched one at a time from `input[i]`, which
      has already been read: succeeds exactly when the input continues with
      the (non-empty) expected final, and then has read all of it. */
  function FinalSpec(input: string, i: nat, expectedFinal: string): (r: Reply<()>)
    requires i < |input|
    ensures i < r.pos <= |input|
    ensures r.result.Ok? <==> |expectedFinal| > 0 && i + |expectedFinal| <= |input| && input[i..i + |expectedFinal|] == expectedFinal
    ensures r.result.Ok? ==> r.pos == i + |expectedFinal|
    decreases |expectedFinal|
  {
    if expectedFinal == [] then Reply(Err(IndexError), i + 1)
    else if input[i] != expectedFinal[0] then
      assert i + |expectedFinal| <= |input| ==> input[i..i + |expectedFinal|][0] == input[i];
      Reply(Err(InternalError(CharMismatch(input[i], expectedFinal[0]))), i + 1)
    else if |expectedFinal| == 1 then Reply(Ok(()), i + 1)
    else if i + 1 == |input| then Reply(Err(InternalError(Timeout)), i + 1)
    else
      var r := FinalSpec(input, i + 1, expectedFinal[1..]);
      assert r.result.Ok? ==> input[i..i + |expectedFinal|] == [input[i]] + input[i + 1..i + 1 + |expectedFinal[1..]|];
      r
  }

  // ---------------------------------------------------------------------
  // The session

  /** The process-wide state of the tester's protocol layer. */
  class Session {
    var use8Bit: bool
    var out: string
    var side: Option<string>
    var input: string
    var pos: nat
    var nextId: nat
    var numIndexedColors: int

    function State(): SessionState
      reads this
    {
      SessionState(use8Bit, out, side, input, pos, nextId, numIndexedColors)
    }

    ghost predicate Valid()
      reads this
    {
      State().Valid()
    }

    /** A fresh session: 7-bit mode, nothing sent, no side channel, the
        terminal's replies still to read, checksum ids from 1, colours not
        yet queried. */
    constructor (replies: string)
      requires Latin1(replies)
      ensures Valid() && State() == SessionState(false, [], None, replies, 0, 1, -1)
    {
      use8Bit, out, side := false, [], None;
      input, pos := replies, 0;
      nextId, numIndexedColors := 1, -1;
    }

    /** use8BitControls = on. */
    method SetUse8BitControls(on: bool)
      modifies this`use8Bit
      ensures State() == old(State()).(use8Bit := on)
    {
      use8Bit := on;
    }

    /** SetSideChannel: attach a fresh recording, or detach it. */
    method SetSideChannel(attach: bool)
      modifies this`side
      ensures State() == old(State()).(side := if attach then Some([]) else None)
    {
      side := if attach then Some([]) else None;
    }

    method Write(s: string, sideChannelOk: bool) returns (r: Result<()>)
      requires Valid()
      modifies this
      ensures Valid()
      ensures Step(r, State()) == WriteStep(old(State()), s, sideChannelOk)
    {
      if !Latin1(s) {
        return Err(UnicodeEncodeError);
      }
      if sideChannelOk && side.Some? {
        side := Some(side.value + s);
      }
      out := out + s;
      r := Ok(());
    }

    method WriteAPC(params: seq<Param>, bel: bool, requestsReport: bool) returns (r: Result<()>)
      requires Valid()
      modifies this
      ensures Valid()
      ensures Step(r, State()) == WriteAPCStep(old(State()), params, bel, requestsReport)
    {
      var strParams := StrAll(params);
      var terminator := if bel then [BEL] else Control(use8Bit, ST);
      r := Write(Control(use8Bit, APC) + Join("", strParams) + terminator, !requestsReport);
    }

    method WriteOSC(params: seq<Param>, bel: bool, requestsReport: bool) returns (r: Result<()>)
      requires Valid()
      modifies this
      ensures Valid()
      ensures Step(r, State()) == WriteOSCStep(old(State()), params, bel, requestsReport)
    {
      var joined := Join(";", StrAll(params));
      var terminator := if bel then [BEL] else Control(use8Bit, ST);
      r := Write(Control(use8Bit, OSC) + joined + terminator, !requestsReport);
    }

    method WriteDCS(introducer: string, params: string) returns (r: Result<()>)
      requires Valid()
      modifies this
      ensures Valid()
      ensures Step(r, State()) == WriteDCSStep(old(State()), introducer, params)
    {
      r := Write(Control(use8Bit, DCS) + introducer + params + Control(use8Bit, ST), true);
    }

    method WriteCSI(prefix: string, params: seq<Param>, intermediate: string, final: string, requestsReport: bool) returns (r: Result<()>)
      requires Valid()
      modifies this
      ensures Valid()
      ensures Step(r, State()) == WriteCSIStep(old(State()), prefix, params, intermediate, final, requestsReport)
    {
      if |final| == 0 {
        return Err(InternalError(EmptyFinal));
      }
      var strParams := StringifyAll(params);
      while |strParams| > 0 && strParams[|strParams| - 1] == ""
        invariant TrimTrailingEmpty(strParams) == TrimTrailingEmpty(StringifyAll(params))
      {
        strParams := strParams[..|strParams| - 1];
      }
      var joined := Join(";", strParams);
      r := Write(Control(use8Bit, CSI) + prefix + joined + intermediate + final, !requestsReport);
    }

    /** read(n). */
    method Read(n: nat) returns (r: Result<string>)
      requires Valid()
      modifies this`pos
      ensures Valid()
      ensures Step(r, State()) == Reading(old(State()), ReadSpec(input, old(pos), n))
    {
      var s: string := [];
      for k := 0 to n
        invariant pos == old(pos) + k <= |input|
        invariant s == input[old(pos)..pos]
      {
        if pos == |input| {
          return Err(InternalError(Timeout));
        }
        s := s + [input[pos]];
        pos := pos + 1;
      }
      r := Ok(s);
    }

    method ReadOrDie(e: char) returns (r: Result<()>)
      requires Valid()
      modifies this`pos
      ensures Valid()
      ensures Step(r, State()) == Reading(old(State()), ExpectSpec(input, old(pos), [e]))
    {
      var c := Read(1);
      if c.Err? {
        return Err(c.error);
      }
      r := AssertCharsEqual(c.value[0], e);
    }

    /** Read until the text read ends with `term`: the loop ReadOSC and
        ReadDCS share. */
    method ReadUntil(term: string) returns (r: Result<string>)
      requires Valid()
      modifies this`pos
      ensures Valid()
      ensures Step(r, State()) == Reading(old(State()), ScanSpec(term, input, old(pos), old(pos)))
    {
      var s: string := [];
      while !EndsWith(s, term)
        invariant old(pos) <= pos <= |input| && s == input[old(pos)..pos]
        invariant ScanSpec(term, input, old(pos), pos) == ScanSpec(term, input, old(pos), old(pos))
        decreases |input| - pos
      {
        var c := Read(1);
        if c.Err? {
          return Err(c.error);
        }
        s := s + c.value;
      }
      r := Ok(s);
    }

    /** ReadOrDie on each character of `es` in turn. */
    method ReadExpected(es: string) returns (r: Result<()>)
      requires Valid()
      modifies this`pos
      ensures Valid()
      ensures Step(r, State()) == Reading(old(State()), ExpectSpec(input, old(pos), es))
    {
      for k := 0 to |es|
        invariant Valid()
        invariant ExpectSpec(input, pos, es[k..]) == ExpectSpec(input, old(pos), es)
      {
        assert es[k..][1..] == es[k + 1..];
        var u := ReadOrDie(es[k]);
        if u.Err? {
          return Err(u.error);
        }
      }
      assert es[|es|..] == [];
      r := Ok(());
    }

    /** ReadOSC: ESC, ']', the expected prefix, then up to ST. */
    method ReadOSC(expectedPrefix: string) returns (r: Result<string>)
      requires Valid()
      modifies this`pos
      ensures Valid()
      ensures Step(r, State()) == Reading(old(State()), ReadOSCSpec(use8Bit, input, old(pos), expectedPrefix))
    {
      var u := ReadExpected([ESC, ']'] + expectedPrefix);
      if u.Err? {
        return Err(u.error);
      }
      var s := ReadUntil(Control(use8Bit, ST));
      if s.Err? {
        return Err(s.error);
      }
      r := Ok(DropLast(s.value, 2));
    }

    /** The C1 introducer of a reply, in either form: the first lines of
        ReadCSI and ReadDCS. */
    method ReadIntroducer(f: C1) returns (r: Result<()>)
      requires Valid()
      modifies this`pos
      ensures Valid()
      ensures Step(r, State()) == Reading(old(State()), IntroSpec(input, old(pos), f))
    {
      var c := Read(1);
      if c.Err? {
        return Err(c.error);
      }
      if c.value[0] == ESC {
        r := ReadOrDie(Control(false, f)[1]);
      } else if c.value[0] as int != f.Code() {
        r := Err(InternalError(NotIntroducer(c.value[0])));
      } else {
        r := Ok(());
      }
    }

    method ReadDCS() returns (r: Result<string>)
      requires Valid()
      modifies this`pos
      ensures Valid()
      ensures Step(r, State()) == Reading(old(State()), ReadDCSSpec(use8Bit, input, old(pos)))
    {
      ghost var h := IntroSpec(input, pos, DCS);
      var u := ReadIntroducer(DCS);
      assert u == h.result && pos == h.pos;
      if u.Err? {
        return Err(u.error);
      }
      r := ReadDcsBody();
    }

    /** ReadDCS after the introducer: up to ST, which is dropped. */
    method ReadDcsBody() returns (r: Result<string>)
      requires Valid()
      modifies this`pos
      ensures Valid()
      ensures Step(r, State()) == Reading(old(State()), DcsBodySpec(use8Bit, input, old(pos)))
    {
      ghost var b := ScanSpec(Control(use8Bit, ST), input, pos, pos);
      var result := ReadUntil(Control(use8Bit, ST));
      assert result == b.result && pos == b.pos;
      if result.Err? {
        return Err(result.error);
      }
      var s := result.value;
      if |s| > 0 && s[|s| - 1] as int == 0x9C {
        r := Ok(s[..|s| - 1]);
      } else {
        r := Ok(DropLast(s, 2));
      }
    }

    /** ReadCSI's inner loop: match the final characters, the first of
        which, `c`, has just been read. */
    method ReadFinal(c: char, expectedFinal: string) returns (r: Result<()>)
      requires Valid() && 0 < pos && c == input[pos - 1]
      modifies this`pos
      ensures Valid()
      ensures Step(r, State()) == Reading(old(State()), FinalSpec(input, old(pos) - 1, expectedFinal))
    {
      var ch := c;
      var ef := expectedFinal;
      while true
        invariant old(pos) <= pos <= |input| && ch == input[pos - 1]
        invariant FinalSpec(input, pos - 1, ef) == FinalSpec(input, old(pos) - 1, expectedFinal)
        decreases |input| - pos
      {
        if ef == [] {
          return Err(IndexError);
        }
        var u := AssertCharsEqual(ch, ef[0]);
        if u.Err? {
          return Err(u.error);
        }
        ef := ef[1..];
        if |ef| > 0 {
          var next := Read(1);
          if next.Err? {
            return Err(next.error);
          }
          ch := next.value[0];
        } else {
          return Ok(());
        }
      }
    }

    /** ReadCSI's parameter loop, from the first character after the
        introducer and the prefix, `c`, which has just been read. */
    method ReadFields(c: char, expectedFinal: string) returns (r: Result<seq<Option<nat>>>)
      requires Valid() && 0 < pos && c == input[pos - 1]
      modifies this`pos
      ensures Valid()
      ensures Step(r, State()) == Reading(old(State()), CsiFieldsSpec(input, old(pos) - 1, [], [], expectedFinal))
    {
      var params: seq<Option<nat>> := [];
      var current: string := [];
      var ch := c;
      while true
        invariant old(pos) <= pos <= |input| && ch == input[pos - 1]
        invariant DigitsIn(current, 10)
        invariant CsiFieldsSpec(input, pos - 1, params, current, expectedFinal)
               == CsiFieldsSpec(input, old(pos) - 1, [], [], expectedFinal)
        decreases |input| - pos
      {
        if ch == ';' {
          if current == [] {
            return Err(ValueError);
          }
          params := params + [Some(ValueOf(current, 10))];
          current := [];
        } else if '0' <= ch <= '9' {
          current := current + [ch];
        } else {
          var f := ReadFinal(ch, expectedFinal);
          if f.Err? {
            return Err(f.error);
          }
          params := params + [if current == [] then None else Some(ValueOf(current, 10))];
          return Ok(params);
        }
        var next := Read(1);
        if next.Err? {
          return Err(next.error);
        }
        ch := next.value[0];
      }
    }

    method ReadCSI(expectedFinal: string, expectedPrefix: Option<string>) returns (r: Result<seq<Option<nat>>>)
      requires Valid()
      modifies this`pos
      ensures Valid()
      ensures Step(r, State()) == Reading(old(State()), ReadCSISpec(input, old(pos), expectedFinal, expectedPrefix))
    {
      ghost var h := IntroSpec(input, pos, CSI);
      var u := ReadIntroducer(CSI);
      assert u == h.result && pos == h.pos;
      if u.Err? {
        return Err(u.error);
      }
      r := ReadCsiParams(expectedFinal, expectedPrefix);
    }

    /** ReadCSI after the introducer: the optional prefix, then the fields. */
    method ReadCsiParams(expectedFinal: string, expectedPrefix: Option<string>) returns (r: Result<seq<Option<nat>>>)
      requires Valid()
      modifies this`pos
      ensures Valid()
      ensures Step(r, State()) == Reading(old(State()), CsiParamsSpec(input, old(pos), expectedFinal, expectedPrefix))
    {
      var c := Read(1);
      if c.Err? {
        return Err(c.error);
      }
      assert c.value == [input[old(pos)]];
      if !IsUnicodeDigit(c.value[0]) && c.value[0] != ';' {
        if expectedPrefix == Some(c.value) {
          c := Read(1);
          if c.Err? {
            return Err(c.error);
          }
          assert c.value == [input[old(pos) + 1]];
        } else {
          return Err(InternalError(UnexpectedChar(c.value[0])));
        }
      }
      r := ReadFields(c.value[0], expectedFinal);
    }
  }
}
