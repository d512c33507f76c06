/** Round trips between the writers and the readers of the sequence codec:
    what WriteCSI, WriteDCS and WriteOSC put on the wire, the matching reader
    takes apart again, in 7-bit and 8-bit mode alike. */
module Framing {
  import opened Types
  import opened Numerals
  import opened Esc
  import opened EscIo

  /** No prefix of `s` ends with `term`: `term` does not occur in `s`. */
  predicate Unterminated(s: string, term: string) {
    forall j :: 0 <= j <= |s| ==> !EndsWith(s[..j], term)
  }

  /** A body without the terminator's first character cannot contain it. */
  lemma UnterminatedWithoutLead(s: string, term: string)
    requires |term| > 0 && term[0] !in s
    ensures Unterminated(s, term)
  {
    forall j | 0 <= j <= |s|
      ensures !EndsWith(s[..j], term)
    {
      if j >= |term| {
        assert s[j - |term|] in s;
        assert s[..j][j - |term|..][0] == s[j - |term|];
      }
    }
  }

  /** The scan stops at the first position where the text read ends with
      the terminator. */
  lemma {:induction false} ScanStopsAtFirst(term: string, input: string, start: nat, i: nat, e: nat)
    requires start <= i <= e <= |input|
    requires EndsWith(input[start..e], term)
    requires forall j :: i <= j < e ==> !EndsWith(input[start..j], term)
    ensures ScanSpec(term, input, start, i) == Reply(Ok(input[start..e]), e)
    decreases e - i
  {
    if i < e {
      ScanStopsAtFirst(term, input, start, i + 1, e);
    }
  }

  /** Both forms of ST: one character, or two different ones. */
  predicate SimpleTerminator(term: string) {
    |term| == 1 || (|term| == 2 && term[0] != term[1])
  }

  lemma STIsSimple(use8Bit: bool)
    ensures SimpleTerminator(Control(use8Bit, ST))
  {
  }

  /** A body free of the terminator, followed by the terminator, is read
      through the terminator and no further. */
  lemma ScanBody(term: string, input: string, start: nat, body: string)
    requires SimpleTerminator(term) && Unterminated(body, term)
    requires start + |body| + |term| <= |input| && input[start..start + |body| + |term|] == body + term
    ensures ScanSpec(term, input, start, start) == Reply(Ok(body + term), start + |body| + |term|)
  {
    var e := start + |body| + |term|;
    forall j | start <= j < e
      ensures !EndsWith(input[start..j], term)
    {
      NotEndedBefore(term, input, start, body, j);
    }
    assert input[start..e] == body + term;
    ScanStopsAtFirst(term, input, start, start, e);
  }

  /** Before the terminator is complete, the text read does not end with
      it. */
  lemma NotEndedBefore(term: string, input: string, start: nat, body: string, j: nat)
    requires SimpleTerminator(term) && Unterminated(body, term)
    requires start + |body| + |term| <= |input| && input[start..start + |body| + |term|] == body + term
    requires start <= j < start + |body| + |term|
    ensures !EndsWith(input[start..j], term)
  {
    assert input[start..j] == (body + term)[..j - start];
    if j - start <= |body| {
      assert (body + term)[..j - start] == body[..j - start];
    } else {
      assert |term| == 2 && j - start == |body| + 1;
      assert input[start..j][j - start - 1] == term[0];
    }
  }

  /** A reply that starts with a C1 introducer in the current mode is
      accepted, and reading moves past it. */
  lemma IntroOf(use8Bit: bool, f: C1, input: string)
    requires StartsWith(input, Control(use8Bit, f))
    ensures IntroSpec(input, 0, f).result.Ok?
    ensures IntroSpec(input, 0, f).pos == |Control(use8Bit, f)|
  {
    var c := Control(use8Bit, f);
    assert input[0] == c[0];
    if !use8Bit {
      assert input[0..2] == c;
    }
  }

  // ---------------------------------------------------------------------
  // DCS

  /** The body of a DCS string, read through ST, with ST removed. */
  lemma DcsBodyOf(use8Bit: bool, input: string, start: nat, body: string)
    requires Unterminated(body, Control(use8Bit, ST))
    requires var n := |body| + |Control(use8Bit, ST)|;
      start + n <= |input| && input[start..start + n] == body + Control(use8Bit, ST)
    ensures DcsBodySpec(use8Bit, input, start) == Reply(Ok(body), start + |body| + |Control(use8Bit, ST)|)
  {
    var st := Control(use8Bit, ST);
    STIsSimple(use8Bit);
    ScanBody(st, input, start, body);
    var s := body + st;
    if use8Bit {
      assert s[|s| - 1] as int == 0x9C && s[..|s| - 1] == body;
    } else {
      assert s[|s| - 1] == '\\' && DropLast(s, 2) == body;
    }
  }

  /** A DCS string whose body does not contain ST reads back as its body
      (introducer and parameters), in either mode, consuming exactly the
      sequence. */
  lemma ReadDCSRoundTrip(use8Bit: bool, introducer: string, params: string, rest: string)
    requires Unterminated(introducer + params, Control(use8Bit, ST))
    ensures var text := DcsSequence(use8Bit, introducer, params);
      ReadDCSSpec(use8Bit, text + rest, 0) == Reply(Ok(introducer + params), |text|)
  {
    var body := introducer + params;
    var intro := Control(use8Bit, DCS);
    var st := Control(use8Bit, ST);
    var text := DcsSequence(use8Bit, introducer, params);
    var input := text + rest;
    assert text == intro + (body + st);
    assert input[0..|text|] == intro + (body + st);
    SplitMatch(input, 0, intro, body + st);
    DcsFramed(use8Bit, input, body);
  }

  /** The introducer, then the body and ST, read back as the body. */
  lemma DcsFramed(use8Bit: bool, input: string, body: string)
    requires Unterminated(body, Control(use8Bit, ST))
    requires var intro := Control(use8Bit, DCS);
      var n := |body| + |Control(use8Bit, ST)|;
      |intro| + n <= |input| && input[0..|intro|] == intro && input[|intro|..|intro| + n] == body + Control(use8Bit, ST)
    ensures ReadDCSSpec(use8Bit, input, 0) ==
      Reply(Ok(body), |Control(use8Bit, DCS)| + |body| + |Control(use8Bit, ST)|)
  {
    var intro := Control(use8Bit, DCS);
    assert StartsWith(input, intro);
    IntroOf(use8Bit, DCS, input);
    DcsBodyOf(use8Bit, input, |intro|, body);
  }

  /** The 8-bit DCS reply to DECRQSS for DECSCL, as a terminal in 8-bit mode
      sends it, reads back as "1$r5;6r". */
  lemma EightBitDecsclReply()
    ensures ReadDCSSpec(true, [0x90 as char] + "1$r5;6r" + [0x9C as char], 0) == Reply(Ok("1$r5;6r"), 9)
  {
    SevenBitForms();
    assert "1$r" + "5;6r" == "1$r5;6r";
    assert 0x9C as char !in "1$r5;6r";
    UnterminatedWithoutLead("1$r5;6r", Control(true, ST));
    ReadDCSRoundTrip(true, "1$r", "5;6r", []);
    assert DcsSequence(true, "1$r", "5;6r") + [] == [0x90 as char] + "1$r5;6r" + [0x9C as char];
  }

  // ---------------------------------------------------------------------
  // OSC

  /** In 7-bit mode an OSC string whose text begins with the expected prefix
      and does not contain ST reads back as the text after the prefix. */
  lemma ReadOSCRoundTrip(params: seq<Param>, expectedPrefix: string, tail: string, rest: string)
    requires Join(";", StrAll(params)) == expectedPrefix + tail
    requires Unterminated(tail, [ESC, '\\'])
    ensures var text := OscSequence(false, params, false);
      ReadOSCSpec(false, text + rest, 0, expectedPrefix) == Reply(Ok(tail), |text|)
  {
    var st := Control(false, ST);
    var text := OscSequence(false, params, false);
    var input := text + rest;
    var head := [ESC, ']'] + expectedPrefix;
    assert text == head + (tail + st);
    assert input[0..|text|] == head + (tail + st);
    SplitMatch(input, 0, head, tail + st);
    OscFramed(input, expectedPrefix, tail);
  }

  /** ESC ] and the prefix, then the text and ST, read back as the text. */
  lemma OscFramed(input: string, expectedPrefix: string, tail: string)
    requires Unterminated(tail, [ESC, '\\'])
    requires var head := [ESC, ']'] + expectedPrefix;
      |head| + |tail| + 2 <= |input| && input[0..|head|] == head && input[|head|..|head| + |tail| + 2] == tail + [ESC, '\\']
    ensures ReadOSCSpec(false, input, 0, expectedPrefix) == Reply(Ok(tail), 2 + |expectedPrefix| + |tail| + 2)
  {
    var st := Control(false, ST);
    var head := [ESC, ']'] + expectedPrefix;
    var h := ExpectSpec(input, 0, head);
    assert h.result.Ok? && h.pos == |head|;
    ScanBody(st, input, |head|, tail);
    var s := tail + st;
    assert DropLast(s, 2) == tail;
  }

  /** ReadOSC expects the 7-bit introducer only: the 8-bit OSC of a
      terminal in 8-bit mode is rejected at its first character. */
  lemma ReadOSCRejectsEightBit(params: seq<Param>, expectedPrefix: string, rest: string)
    ensures var text := OscSequence(true, params, false);
      ReadOSCSpec(true, text + rest, 0, expectedPrefix)
        == Reply(Err(InternalError(CharMismatch(0x9D as char, ESC))), 1)
  {
    var input := OscSequence(true, params, false) + rest;
    assert input[0] == 0x9D as char;
  }

  /** The reply to a colour query, ESC ] 4 ; 0 ; <spec> ESC \, read with
      the prefix "4", gives ";0;<spec>". */
  lemma ColorReply(spec: string)
    requires ESC !in spec
    ensures ReadOSCSpec(false, [ESC, ']'] + "4;0;" + spec + [ESC, '\\'], 0, "4")
         == Reply(Ok(";0;" + spec), 8 + |spec|)
  {
    var input := [ESC, ']'] + "4;0;" + spec + [ESC, '\\'];
    var tail := ";0;" + spec;
    assert input == ([ESC, ']'] + "4") + (tail + [ESC, '\\']);
    SplitMatch(input, 0, [ESC, ']'] + "4", tail + [ESC, '\\']);
    assert ESC !in tail;
    UnterminatedWithoutLead(tail, [ESC, '\\']);
    OscFramed(input, "4", tail);
  }

  // ---------------------------------------------------------------------
  // CSI

  function NatParams(ps: seq<nat>): (r: seq<Param>)
    ensures |r| == |ps| && forall i :: 0 <= i < |ps| ==> r[i] == PInt(ps[i])
  {
    seq(|ps|, i requires 0 <= i < |ps| => PInt(ps[i]))
  }

  /** `k` parameters left at their default. */
  function Defaults(k: nat): (r: seq<Param>)
    ensures |r| == k && forall i :: 0 <= i < k ==> r[i] == PNone
  {
    seq(k, i => PNone)
  }

  function Somes(ps: seq<nat>): (r: seq<Option<nat>>)
    ensures |r| == |ps| && forall i :: 0 <= i < |ps| ==> r[i] == Some(ps[i])
  {
    seq(|ps|, i requires 0 <= i < |ps| => Some(ps[i]))
  }

  /** The decimal fields of a list of numbers. */
  function Fields(ps: seq<nat>): (r: seq<string>)
    ensures |r| == |ps| && forall i :: 0 <= i < |ps| ==> r[i] == NatToString(ps[i])
  {
    seq(|ps|, i requires 0 <= i < |ps| => NatToString(ps[i]))
  }

  /** Trailing default parameters are not sent. */
  lemma TrimDefaults(ps: seq<nat>, k: nat)
    requires |ps| > 0
    ensures TrimTrailingEmpty(StringifyAll(NatParams(ps) + Defaults(k))) == Fields(ps)
  {
    var ss := StringifyAll(NatParams(ps) + Defaults(k));
    var r := TrimTrailingEmpty(ss);
    forall i | 0 <= i < |ps|
      ensures ss[i] == NatToString(ps[i])
    {
      assert (NatParams(ps) + Defaults(k))[i] == PInt(ps[i]);
    }
    forall i | |ps| <= i < |ss|
      ensures ss[i] == ""
    {
      assert (NatParams(ps) + Defaults(k))[i] == PNone;
    }
    assert ss[|ps| - 1] != "";
    assert |r| == |ps|;
  }

  /** Splitting a match of `a + b` at position `i` into its two parts. */
  lemma SplitMatch(input: string, i: nat, a: string, b: string)
    requires i + |a + b| <= |input| && input[i..i + |a + b|] == a + b
    ensures input[i..i + |a|] == a && input[i + |a|..i + |a| + |b|] == b
  {
    assert input[i..i + |a|] == (a + b)[..|a|];
    assert input[i + |a|..i + |a| + |b|] == (a + b)[|a|..];
  }

  /** The `;`-joined fields, one field at a time. */
  lemma JoinFields(ps: seq<nat>)
    requires |ps| > 0
    ensures |ps| == 1 ==> Join(";", Fields(ps)) == NatToString(ps[0])
    ensures |ps| > 1 ==> Join(";", Fields(ps)) == NatToString(ps[0]) + ";" + Join(";", Fields(ps[1..]))
  {
    if |ps| > 1 {
      assert Fields(ps)[1..] == Fields(ps[1..]);
    }
  }

  /** A run of digits is accumulated into the open field, which becomes
      `full`. */
  lemma {:induction false} DigitRun(input: string, i: nat, params: seq<Option<nat>>, current: string, d: string, full: string, ef: string)
    requires i + |d| < |input| && input[i..i + |d|] == d
    requires DigitsIn(current, 10) && DigitsIn(d, 10) && full == current + d
    ensures DigitsIn(full, 10)
    ensures CsiFieldsSpec(input, i, params, current, ef) == CsiFieldsSpec(input, i + |d|, params, full, ef)
    decreases |d|
  {
    if d == [] {
      assert full == current;
    } else {
      assert input[i] == d[0] && IsDigit(d[0]);
      assert input[i + 1..i + 1 + |d[1..]|] == d[1..];
      var grown := current + [d[0]];
      assert grown + d[1..] == full;
      DigitStep(input, i, params, current, ef);
      DigitRun(input, i + 1, params, grown, d[1..], full, ef);
    }
  }

  /** One digit joins the open field. */
  lemma DigitStep(input: string, i: nat, params: seq<Option<nat>>, current: string, ef: string)
    requires i + 1 < |input| && IsDigit(input[i]) && DigitsIn(current, 10)
    ensures DigitsIn(current + [input[i]], 10)
    ensures CsiFieldsSpec(input, i, params, current, ef) == CsiFieldsSpec(input, i + 1, params, current + [input[i]], ef)
  {
  }

  /** A `;` after digits closes the field. */
  lemma SemicolonStep(input: string, j: nat, params: seq<Option<nat>>, d: string, ef: string)
    requires j + 1 < |input| && input[j] == ';'
    requires d != [] && DigitsIn(d, 10)
    ensures CsiFieldsSpec(input, j, params, d, ef) == CsiFieldsSpec(input, j + 1, params + [Some(ValueOf(d, 10))], [], ef)
  {
  }

  /** The final after digits closes the last field. */
  lemma FinalStep(input: string, j: nat, params: seq<Option<nat>>, d: string, ef: string)
    requires |ef| > 0 && !IsDigit(ef[0]) && ef[0] != ';'
    requires j + |ef| <= |input| && input[j..j + |ef|] == ef
    requires d != [] && DigitsIn(d, 10)
    ensures CsiFieldsSpec(input, j, params, d, ef) == Reply(Ok(params + [Some(ValueOf(d, 10))]), j + |ef|)
  {
    assert input[j] == input[j..j + |ef|][0];
    var f := FinalSpec(input, j, ef);
    assert f.result.Ok? && f.pos == j + |ef|;
  }

  /** One decimal field read as a whole: its digits, then `;` or the
      final. */
  lemma FieldThenSemicolon(input: string, i: nat, params: seq<Option<nat>>, n: nat, ef: string)
    requires var t := NatToString(n) + ";"; i + |t| < |input| && input[i..i + |t|] == t
    ensures CsiFieldsSpec(input, i, params, [], ef) == CsiFieldsSpec(input, i + |NatToString(n)| + 1, params + [Some(n)], [], ef)
  {
    var d := NatToString(n);
    SplitMatch(input, i, d, ";");
    assert input[i + |d|] == input[i + |d|..i + |d| + 1][0];
    DigitsThenSemicolon(input, i, params, d, ef);
  }

  lemma DigitsThenSemicolon(input: string, i: nat, params: seq<Option<nat>>, d: string, ef: string)
    requires d != [] && DigitsIn(d, 10)
    requires i + |d| + 1 < |input| && input[i..i + |d|] == d && input[i + |d|] == ';'
    ensures CsiFieldsSpec(input, i, params, [], ef) == CsiFieldsSpec(input, i + |d| + 1, params + [Some(ValueOf(d, 10))], [], ef)
  {
    var none: string := [];
    assert none + d == d;
    DigitRun(input, i, params, none, d, d, ef);
    SemicolonStep(input, i + |d|, params, d, ef);
  }

  lemma FieldThenFinal(input: string, i: nat, params: seq<Option<nat>>, n: nat, ef: string)
    requires |ef| > 0 && !IsDigit(ef[0]) && ef[0] != ';'
    requires var t := NatToString(n) + ef; i + |t| <= |input| && input[i..i + |t|] == t
    ensures CsiFieldsSpec(input, i, params, [], ef) == Reply(Ok(params + [Some(n)]), i + |NatToString(n)| + |ef|)
  {
    var d := NatToString(n);
    SplitMatch(input, i, d, ef);
    DigitsThenFinal(input, i, params, d, ef);
  }

  lemma DigitsThenFinal(input: string, i: nat, params: seq<Option<nat>>, d: string, ef: string)
    requires |ef| > 0 && !IsDigit(ef[0]) && ef[0] != ';'
    requires d != [] && DigitsIn(d, 10)
    requires i + |d| + |ef| <= |input| && input[i..i + |d|] == d && input[i + |d|..i + |d| + |ef|] == ef
    ensures CsiFieldsSpec(input, i, params, [], ef) == Reply(Ok(params + [Some(ValueOf(d, 10))]), i + |d| + |ef|)
  {
    var none: string := [];
    assert none + d == d;
    DigitRun(input, i, params, none, d, d, ef);
    FinalStep(input, i + |d|, params, d, ef);
  }

  lemma SomesCons(params: seq<Option<nat>>, ps: seq<nat>)
    requires |ps| > 0
    ensures params + [Some(ps[0])] + Somes(ps[1..]) == params + Somes(ps)
  {
  }

  /** After the first field and its `;`, the input continues with the
      remaining fields and the final. */
  lemma RestMatch(input: string, i: nat, ps: seq<nat>, ef: string)
    requires |ps| > 1
    requires var t := Join(";", Fields(ps)) + ef; i + |t| <= |input| && input[i..i + |t|] == t
    ensures var j := i + |NatToString(ps[0])| + 1; var more := Join(";", Fields(ps[1..])) + ef;
      && j + |more| == i + |Join(";", Fields(ps)) + ef|
      && input[j..j + |more|] == more
      && input[i..j] == NatToString(ps[0]) + ";"
  {
    var d := NatToString(ps[0]);
    var more := Join(";", Fields(ps[1..])) + ef;
    JoinFields(ps);
    assert Join(";", Fields(ps)) + ef == (d + ";") + more;
    SplitMatch(input, i, d + ";", more);
  }

  /** The first field, then the rest as the induction hypothesis gives it. */
  lemma ConsFields(input: string, i: nat, params: seq<Option<nat>>, ps: seq<nat>, ef: string, e: nat)
    requires |ps| > 1
    requires var j := i + |NatToString(ps[0])| + 1;
      && j < |input| && input[i..j] == NatToString(ps[0]) + ";"
      && CsiFieldsSpec(input, j, params + [Some(ps[0])], [], ef) == Reply(Ok(params + [Some(ps[0])] + Somes(ps[1..])), e)
    ensures CsiFieldsSpec(input, i, params, [], ef) == Reply(Ok(params + Somes(ps)), e)
  {
    FieldThenSemicolon(input, i, params, ps[0], ef);
    SomesCons(params, ps);
  }

  /** The `;`-separated decimal fields of `ps` followed by the final read
      back as `ps`, appended to the fields already closed. */
  lemma {:induction false} FieldsRoundTrip(input: string, i: nat, params: seq<Option<nat>>, ps: seq<nat>, ef: string)
    requires |ps| > 0 && |ef| > 0 && !IsDigit(ef[0]) && ef[0] != ';'
    requires var t := Join(";", Fields(ps)) + ef; i + |t| <= |input| && input[i..i + |t|] == t
    ensures CsiFieldsSpec(input, i, params, [], ef) == Reply(Ok(params + Somes(ps)), i + |Join(";", Fields(ps)) + ef|)
    decreases |ps|, 1
  {
    if |ps| == 1 {
      OneFieldRoundTrip(input, i, params, ps, ef);
    } else {
      MoreFieldsRoundTrip(input, i, params, ps, ef);
    }
  }

  lemma OneFieldRoundTrip(input: string, i: nat, params: seq<Option<nat>>, ps: seq<nat>, ef: string)
    requires |ps| == 1 && |ef| > 0 && !IsDigit(ef[0]) && ef[0] != ';'
    requires var t := Join(";", Fields(ps)) + ef; i + |t| <= |input| && input[i..i + |t|] == t
    ensures CsiFieldsSpec(input, i, params, [], ef) == Reply(Ok(params + Somes(ps)), i + |Join(";", Fields(ps)) + ef|)
  {
    JoinFields(ps);
    FieldThenFinal(input, i, params, ps[0], ef);
    assert Somes(ps) == [Some(ps[0])];
  }

  lemma {:induction false} MoreFieldsRoundTrip(input: string, i: nat, params: seq<Option<nat>>, ps: seq<nat>, ef: string)
    requires |ps| > 1 && |ef| > 0 && !IsDigit(ef[0]) && ef[0] != ';'
    requires var t := Join(";", Fields(ps)) + ef; i + |t| <= |input| && input[i..i + |t|] == t
    ensures CsiFieldsSpec(input, i, params, [], ef) == Reply(Ok(params + Somes(ps)), i + |Join(";", Fields(ps)) + ef|)
    decreases |ps|, 0
  {
    RestMatch(input, i, ps, ef);
    var j := i + |NatToString(ps[0])| + 1;
    FieldsRoundTrip(input, j, params + [Some(ps[0])], ps[1..], ef);
    ConsFields(input, i, params, ps, ef, i + |Join(";", Fields(ps)) + ef|);
  }

  /** The first character of the fields is a digit. */
  lemma FieldsStartWithDigit(ps: seq<nat>)
    requires |ps| > 0
    ensures |Join(";", Fields(ps))| > 0 && IsDigit(Join(";", Fields(ps))[0])
  {
    JoinFields(ps);
    var d := NatToString(ps[0]);
    assert IsHexDigit(d[0]) && DigitValue(d[0]) < 10;
  }

  /** The text WriteCSI sends for numbers and trailing defaults. */
  lemma CsiText(use8Bit: bool, prefix: string, ps: seq<nat>, k: nat, intermediate: string, final: string)
    requires |ps| > 0
    ensures CsiSequence(use8Bit, prefix, NatParams(ps) + Defaults(k), intermediate, final)
         == (Control(use8Bit, CSI) + prefix) + (Join(";", Fields(ps)) + (intermediate + final))
  {
    TrimDefaults(ps, k);
    var joined := Join(";", Fields(ps));
    assert CsiSequence(use8Bit, prefix, NatParams(ps) + Defaults(k), intermediate, final)
        == Control(use8Bit, CSI) + prefix + joined + intermediate + final;
    Regroup(Control(use8Bit, CSI), prefix, joined, intermediate, final);
  }

  lemma Regroup(a: string, b: string, c: string, d: string, e: string)
    ensures a + b + c + d + e == (a + b) + (c + (d + e))
  {
  }

  /** The private prefix, when present and expected, is skipped; when absent
      the fields start at once. */
  lemma PrefixStep(input: string, c: nat, prefix: string, ps: seq<nat>, ef: string, expectedPrefix: Option<string>)
    requires |ps| > 0
    requires prefix == [] || (|prefix| == 1 && expectedPrefix == Some(prefix) && !IsUnicodeDigit(prefix[0]) && prefix[0] != ';')
    requires var t := prefix + Join(";", Fields(ps)); c + |t| < |input| && input[c..c + |t|] == t
    ensures CsiParamsSpec(input, c, ef, expectedPrefix) == CsiFieldsSpec(input, c + |prefix|, [], [], ef)
  {
    var joined := Join(";", Fields(ps));
    SplitMatch(input, c, prefix, joined);
    FieldsStartWithDigit(ps);
    var p := c + |prefix|;
    assert input[p] == input[p..p + |joined|][0] == joined[0];
    if prefix != [] {
      assert input[c] == input[c..c + 1][0] == prefix[0];
      assert [input[c]] == prefix;
    }
  }

  /** Where the parts of a control sequence sit in the input. */
  lemma CsiLayout(input: string, rest: string, intro: string, prefix: string, joined: string, ef: string)
    requires input == (intro + prefix) + (joined + ef) + rest && |ef| > 0
    ensures StartsWith(input, intro)
    ensures var c := |intro|; c + |prefix + joined| < |input| && input[c..c + |prefix + joined|] == prefix + joined
    ensures var p := |intro| + |prefix|; p + |joined + ef| <= |input| && input[p..p + |joined + ef|] == joined + ef
  {
    var c := |intro|;
    var p := c + |prefix|;
    assert input[..c] == intro;
    assert input[c..c + |prefix + joined|] == prefix + joined;
    assert input[p..p + |joined + ef|] == joined + ef;
  }

  /** ReadCSI inverts WriteCSI for numeric parameters with any number of
      trailing defaults: in either mode, with the private prefix present
      (and expected) or absent, and a final whose first character is not a
      digit or `;`, it returns the numbers and consumes exactly the
      sequence. */
  lemma ReadCSIRoundTrip(use8Bit: bool, prefix: string, ps: seq<nat>, k: nat, intermediate: string, final: string,
                         expectedPrefix: Option<string>, rest: string)
    requires |ps| > 0
    requires prefix == [] || (|prefix| == 1 && expectedPrefix == Some(prefix) && !IsUnicodeDigit(prefix[0]) && prefix[0] != ';')
    requires var ef := intermediate + final; |ef| > 0 && !IsDigit(ef[0]) && ef[0] != ';'
    ensures var text := CsiSequence(use8Bit, prefix, NatParams(ps) + Defaults(k), intermediate, final);
      ReadCSISpec(text + rest, 0, intermediate + final, expectedPrefix) == Reply(Ok(Somes(ps)), |text|)
  {
    var ef := intermediate + final;
    var text := CsiSequence(use8Bit, prefix, NatParams(ps) + Defaults(k), intermediate, final);
    CsiText(use8Bit, prefix, ps, k, intermediate, final);
    CsiLayout(text + rest, rest, Control(use8Bit, CSI), prefix, Join(";", Fields(ps)), ef);
    IntroOf(use8Bit, CSI, text + rest);
    PrefixStep(text + rest, |Control(use8Bit, CSI)|, prefix, ps, ef, expectedPrefix);
    FieldsRoundTrip(text + rest, |Control(use8Bit, CSI)| + |prefix|, [], ps, ef);
    assert [] + Somes(ps) == Somes(ps);
  }

  /** Every field closed by `;` holds a number, so only the last field
      ReadCSI returns can be None. */
  lemma {:induction false} FieldsShape(input: string, i: nat, params: seq<Option<nat>>, current: string, ef: string)
    requires i < |input| && DigitsIn(current, 10)
    requires forall j :: 0 <= j < |params| ==> params[j].Some?
    ensures var r := CsiFieldsSpec(input, i, params, current, ef);
      r.result.Ok? ==> CsiShape(r.result.value)
    decreases |input| - i
  {
    var c := input[i];
    if c == ';' && current != [] && i + 1 < |input| {
      var closed := params + [Some(ValueOf(current, 10))];
      FieldsShape(input, i + 1, closed, [], ef);
    } else if IsDigit(c) && i + 1 < |input| {
      FieldsShape(input, i + 1, params, current + [c], ef);
    }
  }

  lemma ReadCSIShape(input: string, pos: nat, expectedFinal: string, expectedPrefix: Option<string>)
    requires pos <= |input|
    ensures var r := ReadCSISpec(input, pos, expectedFinal, expectedPrefix);
      r.result.Ok? ==> CsiShape(r.result.value)
  {
    var h := IntroSpec(input, pos, CSI);
    if h.result.Ok? {
      var p := h.pos;
      if p < |input| {
        if !IsUnicodeDigit(input[p]) && input[p] != ';' {
          if p + 1 < |input| {
            FieldsShape(input, p + 1, [], [], expectedFinal);
          }
        } else {
          FieldsShape(input, p, [], [], expectedFinal);
        }
      }
    }
  }

  /** How many times `c` occurs in `s`. */
  function Occurrences(c: char, s: string): (n: nat)
    ensures n <= |s|
    ensures c !in s ==> n == 0
  {
    if s == [] then 0 else (if s[0] == c then 1 else 0) + Occurrences(c, s[1..])
  }

  /** A successful read returned `base` fields plus one per `;` in the
      input from `from` up to the final. */
  predicate Counted(r: Reply<seq<Option<nat>>>, input: string, from: nat, base: nat, ef: string) {
    r.result.Ok? ==>
      && from <= r.pos - |ef| && r.pos <= |input|
      && |r.result.value| == base + Occurrences(';', input[from..r.pos - |ef|])
  }

  /** The parameter loop returns one field more than it read semicolons:
      `params` plus one per `;` plus the last. */
  lemma {:induction false} FieldsCount(input: string, i: nat, params: seq<Option<nat>>, current: string, ef: string)
    requires i < |input| && DigitsIn(current, 10)
    ensures Counted(CsiFieldsSpec(input, i, params, current, ef), input, i, |params| + 1, ef)
    decreases |input| - i, 1
  {
    var r := CsiFieldsSpec(input, i, params, current, ef);
    var c := input[i];
    if r.result.Ok? {
      var e := r.pos - |ef|;
      if c == ';' {
        SemicolonCount(input, i, params, current, ef);
      } else if IsDigit(c) {
        DigitCount(input, i, params, current, ef);
      } else {
        assert e == i && |r.result.value| == |params| + 1;
        assert input[i..e] == [];
      }
    }
  }

  lemma {:induction false} SemicolonCount(input: string, i: nat, params: seq<Option<nat>>, current: string, ef: string)
    requires i < |input| && DigitsIn(current, 10) && input[i] == ';'
    ensures Counted(CsiFieldsSpec(input, i, params, current, ef), input, i, |params| + 1, ef)
    decreases |input| - i, 0
  {
    var r := CsiFieldsSpec(input, i, params, current, ef);
    if r.result.Ok? {
      var closed := params + [Some(ValueOf(current, 10))];
      assert r == CsiFieldsSpec(input, i + 1, closed, [], ef);
      FieldsCount(input, i + 1, closed, [], ef);
      CountFrom(input, i, r.pos - |ef|);
    }
  }

  lemma {:induction false} DigitCount(input: string, i: nat, params: seq<Option<nat>>, current: string, ef: string)
    requires i < |input| && DigitsIn(current, 10) && IsDigit(input[i])
    ensures Counted(CsiFieldsSpec(input, i, params, current, ef), input, i, |params| + 1, ef)
    decreases |input| - i, 0
  {
    var r := CsiFieldsSpec(input, i, params, current, ef);
    if r.result.Ok? {
      var c := input[i];
      assert r == CsiFieldsSpec(input, i + 1, params, current + [c], ef);
      FieldsCount(input, i + 1, params, current + [c], ef);
      CountFrom(input, i, r.pos - |ef|);
    }
  }

  /** Counting from `i` is counting `input[i]` and then from `i + 1`. */
  lemma CountFrom(input: string, i: nat, e: nat)
    requires i < e <= |input|
    ensures Occurrences(';', input[i..e]) == (if input[i] == ';' then 1 else 0) + Occurrences(';', input[i + 1..e])
  {
    assert input[i..e][1..] == input[i + 1..e];
  }

  /** ReadCSI returns one parameter more than the semicolons between the
      introducer and the final. */
  lemma ReadCSICount(input: string, pos: nat, expectedFinal: string, expectedPrefix: Option<string>)
    requires pos <= |input|
    ensures Counted(ReadCSISpec(input, pos, expectedFinal, expectedPrefix), input, IntroSpec(input, pos, CSI).pos, 1, expectedFinal)
  {
    var h := IntroSpec(input, pos, CSI);
    if h.result.Ok? {
      ParamsCount(input, h.pos, expectedFinal, expectedPrefix);
    }
  }

  lemma ParamsCount(input: string, p: nat, expectedFinal: string, expectedPrefix: Option<string>)
    requires p <= |input|
    ensures Counted(CsiParamsSpec(input, p, expectedFinal, expectedPrefix), input, p, 1, expectedFinal)
  {
    if p < |input| {
      if !IsUnicodeDigit(input[p]) && input[p] != ';' {
        if expectedPrefix == Some([input[p]]) && p + 1 < |input| {
          PrefixCount(input, p, expectedFinal);
        }
      } else {
        FieldsCount(input, p, [], [], expectedFinal);
      }
    }
  }

  /** The prefix character is no semicolon, so counting from it or from
      the field after it is the same. */
  lemma PrefixCount(input: string, p: nat, ef: string)
    requires p + 1 < |input| && input[p] != ';'
    ensures Counted(CsiFieldsSpec(input, p + 1, [], [], ef), input, p, 1, ef)
  {
    var r := CsiFieldsSpec(input, p + 1, [], [], ef);
    FieldsCount(input, p + 1, [], [], ef);
    if r.result.Ok? {
      var e := r.pos - |ef|;
      assert input[p..e][1..] == input[p + 1..e];
    }
  }

  /** A cursor position report, ESC [ ? 6 ; 5 R, read with the prefix "?"
      gives the row and the column. */
  lemma CursorReport()
    ensures ReadCSISpec([ESC, '[', '?', '6', ';', '5', 'R'], 0, "R", Some("?")) == Reply(Ok([Some(6), Some(5)]), 7)
  {
    assert NatToString(6) == "6" && NatToString(5) == "5";
    assert NatParams([6, 5]) + Defaults(0) == [PInt(6), PInt(5)];
    assert TrimTrailingEmpty(StringifyAll([PInt(6), PInt(5)])) == ["6", "5"];
    assert Join(";", ["6", "5"]) == "6;5";
    SevenBitForms();
    ReadCSIRoundTrip(false, "?", [6, 5], 0, "", "R", Some("?"), []);
    assert CsiSequence(false, "?", [PInt(6), PInt(5)], "", "R") + [] == [ESC, '[', '?', '6', ';', '5', 'R'];
    assert Somes([6, 5]) == [Some(6), Some(5)];
    assert "" + "R" == "R";
  }

  /** An empty field before the last raises ValueError, as int("") does. */
  lemma EmptyInteriorField()
    ensures ReadCSISpec([ESC, '[', '5', ';', ';', '1', 'H'], 0, "H", None) == Reply(Err(ValueError), 5)
  {
    var input := [ESC, '[', '5', ';', ';', '1', 'H'];
    SevenBitForms();
    assert input[0..2] == Control(false, CSI);
    var h := IntroSpec(input, 0, CSI);
    assert h.result.Ok? && h.pos == 2;
    assert CsiFieldsSpec(input, 4, [Some(5)], [], "H") == Reply(Err(ValueError), 5);
    assert ValueOf("5", 10) == 5;
    assert CsiFieldsSpec(input, 3, [], "5", "H") == Reply(Err(ValueError), 5);
    assert CsiFieldsSpec(input, 2, [], [], "H") == Reply(Err(ValueError), 5);
  }

  // ---------------------------------------------------------------------
  // The encoding mode

  /** Switching between 7-bit and 8-bit controls changes only the
      introducer (and the ST terminator): what follows the introducer of a
      control sequence, and what lies between the introducer and ST of a
      control string, is the same in both modes. */
  lemma ModeChangesOnlyIntroducer(prefix: string, params: seq<Param>, intermediate: string, final: string,
                                  oscParams: seq<Param>, introducer: string, body: string)
    ensures CsiSequence(true, prefix, params, intermediate, final)[1..] == CsiSequence(false, prefix, params, intermediate, final)[2..]
    ensures OscSequence(true, oscParams, true)[1..] == OscSequence(false, oscParams, true)[2..]
    ensures var d8 := DcsSequence(true, introducer, body); var d7 := DcsSequence(false, introducer, body);
      d8[1..|d8| - 1] == d7[2..|d7| - 2] == introducer + body
    ensures var o8 := OscSequence(true, oscParams, false); var o7 := OscSequence(false, oscParams, false);
      o8[1..|o8| - 1] == o7[2..|o7| - 2]
  {
    CsiModes(prefix, params, intermediate, final);
    OscModes(oscParams);
    DcsModes(introducer, body);
  }

  lemma CsiModes(prefix: string, params: seq<Param>, intermediate: string, final: string)
    ensures CsiSequence(true, prefix, params, intermediate, final)[1..] == CsiSequence(false, prefix, params, intermediate, final)[2..]
  {
    SevenBitForms();
    var csiRest := prefix + Join(";", TrimTrailingEmpty(StringifyAll(params))) + intermediate + final;
    assert CsiSequence(true, prefix, params, intermediate, final) == Control(true, CSI) + csiRest;
    assert CsiSequence(false, prefix, params, intermediate, final) == Control(false, CSI) + csiRest;
  }

  lemma OscModes(oscParams: seq<Param>)
    ensures OscSequence(true, oscParams, true)[1..] == OscSequence(false, oscParams, true)[2..]
    ensures var o8 := OscSequence(true, oscParams, false); var o7 := OscSequence(false, oscParams, false);
      o8[1..|o8| - 1] == o7[2..|o7| - 2]
  {
    SevenBitForms();
    var joined := Join(";", StrAll(oscParams));
    assert OscSequence(true, oscParams, true) == Control(true, OSC) + (joined + [BEL]);
    assert OscSequence(false, oscParams, true) == Control(false, OSC) + (joined + [BEL]);
    assert OscSequence(true, oscParams, false) == Control(true, OSC) + joined + Control(true, ST);
    assert OscSequence(false, oscParams, false) == Control(false, OSC) + joined + Control(false, ST);
  }

  lemma DcsModes(introducer: string, body: string)
    ensures var d8 := DcsSequence(true, introducer, body); var d7 := DcsSequence(false, introducer, body);
      d8[1..|d8| - 1] == d7[2..|d7| - 2] == introducer + body
  {
    SevenBitForms();
    assert DcsSequence(true, introducer, body) == Control(true, DCS) + (introducer + body) + Control(true, ST);
    assert DcsSequence(false, introducer, body) == Control(false, DCS) + (introducer + body) + Control(false, ST);
  }
}
