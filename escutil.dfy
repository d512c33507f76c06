/** The tester's assertion helpers (which --force turns into no-ops), the
    VT-level guard, the printable rendering of a cell code and the cached
    query for the number of indexed colours. */
module EscUtil {
  import opened Types
  import opened Numerals
  import opened Esc
  import opened EscIo
  import opened Framing

  // ---------------------------------------------------------------------
  // Assertions

  /** Raise: the exception propagates unless the tester runs with --force. */
  function Raise(cfg: Config, e: Error): (r: Result<()>)
    ensures r.Err? <==> !cfg.force
    ensures r.Err? ==> r.error == e
  {
    if cfg.force then Ok(()) else Err(e)
  }

  /** AssertEQ: a TestFailure when the values differ, unless forced. */
  function AssertEQ<T(==)>(cfg: Config, actual: T, expected: T): (r: Result<()>)
    ensures r.Err? <==> actual != expected && !cfg.force
    ensures r.Err? ==> r.error == TestFailure
  {
    if actual != expected then Raise(cfg, TestFailure) else Ok(())
  }

  /** AssertGE: a TestFailure when `actual` is below `expected`, unless forced. */
  function AssertGE(cfg: Config, actual: int, expected: int): (r: Result<()>)
    ensures r.Err? <==> actual < expected && !cfg.force
    ensures r.Err? ==> r.error == TestFailure
  {
    if actual < expected then Raise(cfg, TestFailure) else Ok(())
  }

  /** AssertTrue: returns at once under --force, and otherwise fails when
      the condition does not hold. */
  function AssertTrue(cfg: Config, value: bool): (r: Result<()>)
    ensures r.Err? <==> !value && !cfg.force
    ensures r.Err? ==> r.error == TestFailure
  {
    if cfg.force then Ok(())
    else if !value then Raise(cfg, TestFailure)
    else Ok(())
  }

  /** AssertVTLevel: the feature needs at least level `minimum`; --force
      does not suppress this one. */
  function AssertVTLevel(cfg: Config, minimum: int): (r: Result<()>)
    ensures r.Err? <==> cfg.vtLevel < minimum
    ensures r.Err? ==> r.error == InsufficientVTLevel(cfg.vtLevel, minimum)
  {
    if cfg.vtLevel < minimum then Err(InsufficientVTLevel(cfg.vtLevel, minimum)) else Ok(())
  }

  /** The same failed check passes under --force and fails without it,
      except for the VT-level guard, which fails either way. */
  lemma ForceSuppresses(cfg: Config, e: Error, minimum: int)
    ensures Raise(cfg.(force := true), e) == Ok(())
    ensures Raise(cfg.(force := false), e) == Err(e)
    ensures cfg.vtLevel < minimum ==>
      AssertVTLevel(cfg.(force := true), minimum) == AssertVTLevel(cfg.(force := false), minimum) == Err(InsufficientVTLevel(cfg.vtLevel, minimum))
  {
  }

  /** PrintableChar: a code in the printable ASCII range stands for itself,
      anything else is shown as '?'. */
  function PrintableChar(c: int): (r: char)
    ensures ' ' <= r <= '~'
    ensures ' ' as int <= c <= '~' as int ==> r as int == c
    ensures !(' ' as int <= c <= '~' as int) ==> r == '?'
  {
    if ' ' as int <= c <= '~' as int then c as char else '?'
  }

  // ---------------------------------------------------------------------
  // Decoding the colour-count reply

  /** The whitespace bytearray.fromhex skips: ASCII space and \t to \r. */
  predicate IsAsciiSpace(c: char) { c == ' ' || '\t' <= c <= '\r' }

  /** bytearray.fromhex(s).decode("Latin1"): pairs of hexadecimal digits,
      each optionally preceded by whitespace; each pair is one Latin-1
      character. Anything else raises ValueError (None here). */
  function FromHex(s: string): (r: Option<string>)
    ensures r.Some? ==> Latin1(r.value)
    decreases |s|
  {
    if s == [] then Some([])
    else if IsAsciiSpace(s[0]) then FromHex(s[1..])
    else if |s| >= 2 && IsHexDigit(s[0]) && IsHexDigit(s[1]) then
      match FromHex(s[2..])
      case None => None
      case Some(t) => Some([(DigitValue(s[0]) * 16 + DigitValue(s[1])) as char] + t)
    else None
  }

  /** The hexadecimal text of Latin-1 text, two upper-case digits per
      character: the form XTGETTCAP uses for names and values. */
  function ToHex(t: string): (h: string)
    requires Latin1(t)
    ensures |h| == 2 * |t| && DigitsIn(h, 16)
  {
    if t == [] then []
    else
      var c := t[0] as int;
      [DigitChar(c / 16), DigitChar(c % 16)] + ToHex(t[1..])
  }

  /** fromhex undoes ToHex. */
  lemma {:induction false} FromHexOfToHex(t: string)
    requires Latin1(t)
    ensures FromHex(ToHex(t)) == Some(t)
  {
    if t != [] {
      var h := ToHex(t);
      var c := t[0] as int;
      FromHexOfToHex(t[1..]);
      assert h[2..] == ToHex(t[1..]);
      assert !IsAsciiSpace(h[0]);
      assert (DigitValue(h[0]) * 16 + DigitValue(h[1])) == c;
      assert [c as char] + t[1..] == t;
    }
  }

  /** `pat` occurs in `s` starting at index `i`. */
  predicate MatchAt(s: string, pat: string, i: int) {
    0 <= i && i + |pat| <= |s| && s[i..i + |pat|] == pat
  }

  /** Python's `pat in s`. */
  predicate Contains(s: string, pat: string) {
    exists i :: 0 <= i <= |s| && MatchAt(s, pat, i)
  }

  /** Without a match at the front, `s` contains `pat` exactly when its
      tail does. */
  lemma ContainsTail(s: string, pat: string)
    requires |pat| > 0 && |s| >= |pat| && s[..|pat|] != pat
    ensures Contains(s, pat) <==> Contains(s[1..], pat)
  {
    if Contains(s, pat) {
      var i :| 0 <= i <= |s| && MatchAt(s, pat, i);
      assert i > 0;
      assert s[1..][i - 1..i - 1 + |pat|] == pat;
      assert MatchAt(s[1..], pat, i - 1);
    }
    if Contains(s[1..], pat) {
      var i :| 0 <= i <= |s[1..]| && MatchAt(s[1..], pat, i);
      assert i + 1 + |pat| <= |s| && s[1..][i..i + |pat|] == pat;
      assert s[i + 1..i + 1 + |pat|] == s[1..][i..i + |pat|];
      assert MatchAt(s, pat, i + 1);
    }
  }

  /** str.replace(pat, ""): every non-overlapping occurrence of `pat`,
      scanning left to right, removed. The text is unchanged exactly when
      it does not contain `pat`. */
  function RemoveAll(s: string, pat: string): (r: string)
    requires |pat| > 0
    ensures |r| <= |s|
    ensures r == s <==> !Contains(s, pat)
    decreases |s|
  {
    if |s| < |pat| then s
    else if s[..|pat|] == pat then
      assert MatchAt(s, pat, 0);
      RemoveAll(s[|pat|..], pat)
    else
      ContainsTail(s, pat);
      var r := [s[0]] + RemoveAll(s[1..], pat);
      assert r == s ==> r[1..] == s[1..];
      r
  }

  /** A leading occurrence is removed. */
  lemma RemoveLeading(pat: string, t: string)
    requires |pat| > 0
    ensures RemoveAll(pat + t, pat) == RemoveAll(t, pat)
  {
    assert (pat + t)[..|pat|] == pat;
    assert (pat + t)[|pat|..] == t;
  }

  /** Text without some character of `pat` does not contain `pat`. */
  lemma MissingChar(s: string, pat: string, k: nat)
    requires k < |pat| && pat[k] !in s
    ensures !Contains(s, pat)
  {
  }

  /** The capability whose value GetIndexedColors queries: "Co", in
      hexadecimal. */
  const ColorsName: string := "436F"

  /** What precedes the value in a successful XTGETTCAP reply for it. */
  const ColorsPrefix: string := "1+r" + ColorsName + "="

  /** The colour count kept within [8, 256]. */
  function Clamp(v: int): (n: int)
    ensures 8 <= n <= 256
    ensures 8 <= v <= 256 ==> n == v
    ensures v < 8 ==> n == 8
    ensures v > 256 ==> n == 256
  {
    if v < 8 then 8 else if v > 256 then 256 else v
  }

  /** GetIndexedColors' decoding of the DCS reply: remove the reply prefix;
      when there was one, the rest is hexadecimal Latin-1 text holding a
      decimal number, which is clamped; any exception on the way (including
      one from reading the reply) gives 16. */
  function ColorsFromReply(check: Result<string>): (n: int)
    ensures 8 <= n <= 256
    ensures check.Err? ==> n == 16
    ensures check.Ok? && !Contains(check.value, ColorsPrefix) ==> n == 16
  {
    match check
    case Err(_) => 16
    case Ok(c) =>
      var trimmed := RemoveAll(c, ColorsPrefix);
      if trimmed == c then 16
      else
        match FromHex(trimmed)
        case None => 16
        case Some(text) =>
          match ParseInt(text)
          case None => 16
          case Some(v) => Clamp(v)
  }

  /** str() of an int is ASCII text. */
  lemma IntTextLatin1(v: int)
    ensures Latin1(IntToString(v))
  {
    var text := IntToString(v);
    if v < 0 {
      assert text == "-" + NatToString(-v);
    }
    assert forall k :: 0 <= k < |text| ==> text[k] == '-' || IsDigit(text[k]);
  }

  /** Hexadecimal text after the prefix is what the prefix removal leaves. */
  lemma TrimmedReply(h: string)
    requires DigitsIn(h, 16)
    ensures RemoveAll(ColorsPrefix + h, ColorsPrefix) == h != ColorsPrefix + h
  {
    RemoveLeading(ColorsPrefix, h);
    assert ColorsPrefix[1] == '+';
    assert '+' !in h by {
      assert forall k :: 0 <= k < |h| ==> IsHexDigit(h[k]);
    }
    MissingChar(h, ColorsPrefix, 1);
  }

  /** A well-formed reply carrying the decimal text of `v` yields `v`,
      clamped. */
  lemma ColorsReplyRoundTrip(v: int)
    ensures ColorsFromReply(Ok(ColorsPrefix + ToHex(IntToString(v)))) == Clamp(v)
  {
    var text := IntToString(v);
    IntTextLatin1(v);
    var h := ToHex(text);
    TrimmedReply(h);
    FromHexOfToHex(text);
    ParseIntOfIntToString(v);
  }

  /** The reply of a terminal with 256 colours, "1+r436F=323536". */
  lemma TwoHundredFiftySixColors()
    ensures ColorsFromReply(Ok("1+r436F=323536")) == 256
  {
    Reply256();
    ColorsReplyRoundTrip(256);
  }

  lemma Reply256()
    ensures ColorsPrefix + ToHex(IntToString(256)) == "1+r436F=323536"
  {
    Text256();
    Hex256();
  }

  /** The queried name 436F is the hexadecimal of "Co". */
  lemma ColorsNameIsCo()
    ensures FromHex(ColorsName) == Some("Co")
  {
    HexCo();
    FromHexOfToHex("Co");
  }

  lemma Text256()
    ensures IntToString(256) == "256"
  {
    DivMod(256, 10);
    DivMod(25, 10);
    assert NatToDigits(2, 10) == "2";
    assert NatToDigits(25, 10) == "25";
  }

  lemma Hex256()
    ensures ToHex("256") == "323536"
  {
    assert DigitChar(2) == '2' && DigitChar(3) == '3' && DigitChar(5) == '5' && DigitChar(6) == '6';
    assert "256"[1..] == "56" && "56"[1..] == "6" && "6"[1..] == [];
    assert ToHex("6") == "36" by {
      assert ToHex("6") == [DigitChar(3), DigitChar(6)] + ToHex([]);
    }
    assert ToHex("56") == "35" + ToHex("6") by {
      assert ToHex("56") == [DigitChar(3), DigitChar(5)] + ToHex("6");
    }
    assert ToHex("256") == "32" + ToHex("56") by {
      assert ToHex("256") == [DigitChar(3), DigitChar(2)] + ToHex("56");
    }
  }

  lemma HexCo()
    ensures ToHex("Co") == ColorsName
  {
    assert ToHex("o") == "6F";
    assert ToHex("Co") == "43" + ToHex("o");
  }

  // ---------------------------------------------------------------------
  // GetIndexedColors

  /** GetIndexedColors: a cached positive count is returned as is;
      otherwise the terminal is asked with XTGETTCAP (DCS + q 436F ST), the
      reply is decoded, and the result is cached. Nothing it does raises. */
  function IndexedColorsStep(st: SessionState): (r: Step<int>)
    requires st.Valid()
    ensures r.result.Ok? && r.state.Valid()
    ensures st.numIndexedColors > 0 ==> r == Step(Ok(st.numIndexedColors), st)
    ensures st.numIndexedColors <= 0 ==>
      8 <= r.result.value <= 256 && r.state.numIndexedColors == r.result.value
    ensures r.state.input == st.input && r.state.use8Bit == st.use8Bit && r.state.nextId == st.nextId
  {
    if st.numIndexedColors > 0 then Step(Ok(st.numIndexedColors), st)
    else
      var w := WriteDCSStep(st, "+q", ColorsName);
      if w.result.Err? then Step(Ok(16), w.state.(numIndexedColors := 16))
      else
        var r := Reading(w.state, ReadDCSSpec(w.state.use8Bit, w.state.input, w.state.pos));
        var n := ColorsFromReply(r.result);
        Step(Ok(n), r.state.(numIndexedColors := n))
  }

  /** The count is queried at most once: a second call returns the same
      value and changes nothing. */
  lemma ColorsCached(st: SessionState)
    requires st.Valid()
    ensures var first := IndexedColorsStep(st);
      IndexedColorsStep(first.state) == first.(state := first.state)
    ensures IndexedColorsStep(st).state.numIndexedColors > 0
  {
  }

  /** When the terminal answers the query with the decimal text of `v`, the
      count is `v` clamped and cached; the query went to the output (and to
      an attached side channel) and the reply was read to its end. */
  lemma ColorsQueryReply(st: SessionState, v: int, rest: string)
    requires st.Valid() && st.numIndexedColors <= 0 && st.pos == 0
    requires st.input == DcsSequence(st.use8Bit, ColorsPrefix, ToHex(IntToString(v))) + rest
    ensures var request := DcsSequence(st.use8Bit, "+q", ColorsName);
      var reply := DcsSequence(st.use8Bit, ColorsPrefix, ToHex(IntToString(v)));
      IndexedColorsStep(st) ==
        Step(Ok(Clamp(v)), st.(out := st.out + request,
                               side := if st.side.Some? then Some(st.side.value + request) else None,
                               pos := |reply|, numIndexedColors := Clamp(v)))
  {
    IntTextLatin1(v);
    var h := ToHex(IntToString(v));
    QueryLatin1(st.use8Bit);
    ColorsReplyUnterminated(st.use8Bit, h);
    ReadDCSRoundTrip(st.use8Bit, ColorsPrefix, h, rest);
    ColorsReplyRoundTrip(v);
  }

  /** The query's text is Latin-1, so writing it cannot fail. */
  lemma QueryLatin1(use8Bit: bool)
    ensures Latin1(DcsSequence(use8Bit, "+q", ColorsName))
  {
    SevenBitForms();
  }

  /** The reply body holds no string terminator. */
  lemma ColorsReplyUnterminated(use8Bit: bool, h: string)
    requires DigitsIn(h, 16)
    ensures Unterminated(ColorsPrefix + h, Control(use8Bit, ST))
  {
    var body := ColorsPrefix + h;
    assert forall k :: 0 <= k < |body| ==> body[k] as int < 0x7F && body[k] != ESC by {
      forall k | 0 <= k < |body|
        ensures body[k] as int < 0x7F && body[k] != ESC
      {
        if k >= |ColorsPrefix| { assert body[k] == h[k - |ColorsPrefix|]; }
      }
    }
    SevenBitForms();
    UnterminatedWithoutLead(body, Control(use8Bit, ST));
  }

  /** GetIndexedColors on the live session. */
  method GetIndexedColors(s: Session) returns (n: int)
    requires s.Valid()
    modifies s
    ensures s.Valid()
    ensures Step(Ok(n), s.State()) == IndexedColorsStep(old(s.State()))
  {
    if s.numIndexedColors > 0 {
      return s.numIndexedColors;
    }
    var w := s.WriteDCS("+q", ColorsName);
    if w.Err? {
      s.numIndexedColors := 16;
      return 16;
    }
    var check := s.ReadDCS();
    n := ColorsFromReply(check);
    s.numIndexedColors := n;
  }
}
