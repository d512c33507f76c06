# esctest2 protocol core in Dafny

esctest2 drives a terminal emulator by writing escape sequences to it and
reading its replies. This project models the part of esctest2 that builds
and parses those sequences, together with the small amount of state it keeps
between calls:

- `esc.py` (module `Esc`): the control characters, the S7C1T/S8C1T mode
  announcements, the VT level, and the `empty`/`blank` cell conventions that
  depend on the command-line options (a `Config` value).
- `escio.py` (module `EscIo`): the C1 controls in their 7-bit (`ESC` +
  letter) and 8-bit (one code point in 0x80–0x9F) forms; the text `WriteCSI`,
  `WriteOSC`, `WriteAPC` and `WriteDCS` send, including CSI's dropping of
  trailing empty parameters; the readers `ReadOSC`, `ReadDCS` and `ReadCSI`
  with all their error paths; and the process globals (`use8BitControls`, the
  side channel, the terminal's reply stream) as the fields of one `Session`
  class. Each `Session` method is proved equal to a pure step function on
  the session's abstract value (`SessionState`). Reads that would block when
  the terminal sends no more data are modelled as running out of input.
- `esccmd.py` (module `EscCmd`): the command builders as pure functions
  returning the `Cmd` each hands to a writer, `Send` to write it, and
  `ChangeSpecialColor` (which consults the indexed-colour count) as a method
  with its loop. The builders whose one parameter may be omitted are one
  table datatype, `OneParam`, built by `Single`. The builders that write one
  bare C1 control (`APC`, `DCS`, `DECID`, `EPA`, `HTS`, `IND`, `NEL`, `PM`,
  `RI`, `SOS`, `SPA`, `ST`) are the one constructor `Plain(f)` of `Cmd`,
  with `f` the control. `ManipulateSelectionData` passes any data it is
  given to `escoding.strip_binary`, which `escoding.py` does not define, so
  such a call raises `AttributeError` before writing; the model returns
  that error.
- `escutil.py` (modules `EscUtil` and `Checksum`): the assertions and their
  `--force` behaviour, `AssertVTLevel`, `GetIndexedColors` and its cache,
  `GetChecksumOfRect` (with iTerm2's reply workaround and `gNextId`), and
  `AssertScreenCharsInRectEqual` with its cell loop, old-xterm normalisation
  and error list. `Checksum` is a separate module because `escutil` and
  `esccmd` import each other, which Dafny modules cannot.
- Module `Framing` holds the round-trip and framing theorems that connect
  the writers to the readers; module `Numerals` models Python's `str()` and
  `int()` on numbers; module `Types` holds `Point`, `Rect`, `Option`,
  `Result` and the exception classes as one `Error` datatype.

Python exceptions become the `Err` case of `Result`; the error kinds are the
exception classes the code raises (`InternalError`, `ValueError`,
`TypeError`, `IndexError`, `UnicodeEncodeError`, `InsufficientVTLevel`,
`BadResponse`, `TestFailure` for a failed `AssertEQ`/`AssertGE`/`AssertTrue`,
`ChecksumException`, `AttributeError`). Writing text outside Latin-1 raises
`UnicodeEncodeError` and sends nothing.

A note on CSI replies: `ReadCSI` turns an empty field into a default only
when it is the last one. An empty field in the middle (`CSI 5;;1 H`) reaches
`int("")` and raises `ValueError`, so such a reply cannot be read back as
`[5, None, 1]`. The model follows the code here (`Framing.EmptyInteriorField`).

## Model

| member | source | states |
|---|---|---|
| Esc.Empty | esctest/esc.py:31-34 | the empty-cell character is a space exactly when the xterm checksum option is at least 334, NUL otherwise |
| Esc.Blank | esctest/esc.py:36-39 | the blank-cell character is a space exactly when the expected terminal is xterm, NUL otherwise |
| Esc.CellCodes | esctest/esc.py:31-39 | both cell characters have code 0 or 32, and under the default options an empty cell is NUL |
| Esc.ModeAnnouncements | esctest/esc.py:13-14 | S7C1T and S8C1T are ESC, space, then F or G: they differ only in their last character |
| EscIo.C1.Code | esctest/escio.py:61-107 | every named C1 control has a code in 0x80–0x9F |
| EscIo.CmdChar | esctest/escio.py:54-57 | in 8-bit mode a C1 control is an 8-bit control and in 7-bit mode a 7-bit one (both directions), and both forms decode back to the same code |
| EscIo.SevenBitForms | esctest/escio.py:79-107 | CSI, ST, OSC and DCS are ESC [, ESC \, ESC ], ESC P in 7-bit mode and 0x9B, 0x9C, 0x9D, 0x90 in 8-bit mode |
| EscIo.ControlsDecode | esctest/escio.py:44-107 | each control's text decodes to that control's code, and two controls send the same text exactly when they are the same control |
| EscIo.TrimTrailingEmpty | esctest/escio.py:144-146 | the CSI parameter list loses exactly its run of trailing empty strings: the result is a prefix, ends in a non-empty string or is empty, and everything removed was empty |
| EscIo.WriteStep | esctest/escio.py:28-31 | a write succeeds exactly when the text is Latin-1; then it is appended to the output, and to the side channel only when one is attached and the write allows it; nothing else changes |
| EscIo.ExpectSpec | esctest/escio.py:153-159 | expecting a string succeeds exactly when the input at the read position is that string, and then consumes exactly it |
| EscIo.ScanSpec | esctest/escio.py:167-170 | reading up to a terminator returns the text from the start to the first place it ends in the terminator, or fails at the end of input |
| EscIo.IntroSpec | esctest/escio.py:176-180 | the introducer is accepted exactly when the input holds the control's 7-bit or 8-bit form, consuming two or one characters |
| EscIo.FinalSpec | esctest/escio.py:199-206 | the final is accepted exactly when it is non-empty and the input holds it at that point, consuming it |
| EscIo.Session.constructor | esctest/escio.py:12-15 | a new session is in 7-bit mode with no output, no side channel, the reply stream unread, the next id 1 and no indexed-colour count |
| EscIo.Session.SetUse8BitControls | esctest/escio.py:15 | only the 8-bit flag changes |
| EscIo.Session.SetSideChannel | esctest/escio.py:33-40 | attaching starts an empty side channel, detaching removes it; nothing else changes |
| EscIo.Session.Write | esctest/escio.py:28-31 | the new state is the write step of the old one |
| EscIo.Session.WriteAPC | esctest/escio.py:111-119 | sends APC, the concatenated parameters and the terminator, off the side channel when a report is requested |
| EscIo.Session.WriteOSC | esctest/escio.py:121-130 | sends OSC, the `;`-joined parameters and BEL or ST, off the side channel when a report is requested |
| EscIo.Session.WriteDCS | esctest/escio.py:132-133 | sends DCS, the introducer, the body and ST |
| EscIo.Session.WriteCSI | esctest/escio.py:135-151 | an empty final raises and sends nothing; otherwise sends CSI, prefix, the parameters without trailing empties, intermediate and final (the trimming loop carries its invariant) |
| EscIo.Session.Read | esctest/escio.py:237-247 | reads exactly n characters or fails at the end of input |
| EscIo.Session.ReadOrDie | esctest/escio.py:153-155 | consumes one character and fails unless it is the expected one |
| EscIo.Session.ReadUntil | esctest/escio.py:167-170 | implements the terminator scan |
| EscIo.Session.ReadExpected | esctest/escio.py:163-166 | implements the expected-string read |
| EscIo.Session.ReadIntroducer | esctest/escio.py:176-180 | implements the introducer read |
| EscIo.Session.ReadFinal | esctest/escio.py:199-206 | implements the final read |
| EscIo.Session.ReadFields | esctest/escio.py:192-213 | implements the parameter loop: digits accumulate, `;` closes a field, anything else ends the list |
| EscIo.Session.ReadOSC | esctest/escio.py:161-171 | expects the 7-bit ESC ] and the prefix, reads to the current mode's ST and returns what was read with its last two characters dropped |
| EscIo.Session.ReadDCS | esctest/escio.py:217-235 | accepts ESC P or the 8-bit DCS in either mode, reads to the current mode's ST, and returns the body without it (one character dropped for the 8-bit ST, two otherwise) |
| EscIo.Session.ReadDcsBody | esctest/escio.py:228-235 | after the introducer: reads up to the current mode's ST and drops it, one character for the 8-bit ST and two otherwise |
| EscIo.Session.ReadCSI | esctest/escio.py:173-215 | expects CSI, the optional prefix, the fields and the final, with every error path |
| EscIo.Session.ReadCsiParams | esctest/escio.py:182-215 | after the introducer: a character that is neither a digit nor `;` must be the expected prefix, or InternalError(UnexpectedChar) is raised; then the fields are read |
| Framing.ReadDCSRoundTrip | esctest/escio.py:217-235 | in either mode, a DCS string whose body does not contain ST reads back as exactly its body, consuming exactly its text |
| Framing.DcsFramed | esctest/escio.py:217-235 | any input starting with DCS, a body without ST, and ST reads as that body |
| Framing.EightBitDecsclReply | esctest/tests/s8c1t.py:36-43 | the 8-bit DECRQSS reply `1$r5;6r` is read as that text |
| Framing.ReadOSCRoundTrip | esctest/escio.py:161-171 | a 7-bit OSC with ST whose text after the expected prefix has no ST reads back as that text |
| Framing.OscFramed | esctest/escio.py:161-171 | any input of ESC ], the prefix, a text without ST and ST reads as that text |
| Framing.ReadOSCRejectsEightBit | esctest/escio.py:161-164 | an 8-bit OSC is never accepted by ReadOSC |
| Framing.ColorReply | esctest/escio.py:161-171 | a colour reply `OSC 4;0;spec ST` read with prefix 4 gives `;0;spec` |
| Framing.TrimDefaults | esctest/escio.py:144-146 | numbers followed by defaults are sent as the numbers alone |
| Framing.FieldsRoundTrip | esctest/escio.py:192-213 | `;`-joined numbers followed by a final read back as those numbers |
| Framing.ReadCSIRoundTrip | esctest/escio.py:135-215 | in either mode, with or without a one-character prefix, numeric parameters followed by defaults read back as the numbers, consuming exactly the sequence |
| Framing.ReadCSIShape | esctest/escio.py:192-213 | every value ReadCSI returns is a number except possibly the last, which is a default |
| Framing.ReadCSICount | esctest/escio.py:192-213 | ReadCSI returns one more value than the semicolons between the introducer and the final |
| Framing.CursorReport | esctest/tests/decdsr.py:30-41 | the cursor report `CSI ? 6;5 R` reads as `[6, 5]` |
| Framing.EmptyInteriorField | esctest/escio.py:193-195 | `CSI 5;;1 H` is rejected with ValueError where the empty field is parsed |
| Framing.ModeChangesOnlyIntroducer | esctest/escio.py:111-151 | switching between 7-bit and 8-bit controls changes only the introducers and ST; the text between them is identical |
| EscUtil.Raise | esctest/escutil.py:25-27 | raises the given error unless `--force` is set |
| EscUtil.AssertEQ | esctest/escutil.py:35-39 | fails exactly when the values differ and `--force` is not set |
| EscUtil.AssertGE | esctest/escutil.py:29-33 | fails exactly when actual is below expected and `--force` is not set |
| EscUtil.AssertTrue | esctest/escutil.py:41-47 | fails exactly when the value is false and `--force` is not set |
| EscUtil.AssertVTLevel | esctest/escutil.py:223-232 | fails with InsufficientVTLevel(level, minimum) exactly when the level is below the minimum, whatever `--force` says |
| EscUtil.ForceSuppresses | esctest/escutil.py:25-47 | `--force` turns every raise into success but never an insufficient VT level |
| EscUtil.PrintableChar | esctest/escutil.py:234-235 | codes from space to `~` are themselves, everything else is `?` |
| EscUtil.FromHexOfToHex | esctest/escutil.py:213 | decoding the hex form of a Latin-1 string gives the string back |
| EscUtil.RemoveAll | esctest/escutil.py:210 | removing a pattern leaves the string unchanged exactly when the pattern does not occur |
| EscUtil.Clamp | esctest/escutil.py:215-218 | the colour count is kept within 8..256, unchanged inside that range |
| EscUtil.ColorsFromReply | esctest/escutil.py:208-220 | the count is always within 8..256, and 16 when the read fails or the reply lacks the expected prefix |
| EscUtil.ColorsReplyRoundTrip | esctest/escutil.py:209-218 | a well-formed reply carrying any number yields that number clamped to 8..256 |
| EscUtil.TwoHundredFiftySixColors | esctest/escutil.py:209-214 | the reply `1+r436F=323536` yields 256 |
| EscUtil.ColorsNameIsCo | esctest/escutil.py:206 | the queried capability name 436F is hex for "Co" |
| EscUtil.IndexedColorsStep | esctest/escutil.py:201-221 | a cached count is returned without I/O; otherwise the query is sent, the reply read, and the count cached |
| EscUtil.ColorsQueryReply | esctest/escutil.py:201-221 | with no cached count and the reply `DCS 1+r436F=<hex of str(v)> ST` waiting, the call sends `DCS +q436F ST` (to the output and an attached side channel), reads exactly the reply, returns v clamped to 8..256 and caches it |
| EscUtil.ColorsCached | esctest/escutil.py:201-203 | after the first call the count is cached, and a second call returns the same count and changes nothing |
| EscUtil.GetIndexedColors | esctest/escutil.py:201-221 | the new state is the indexed-colour step of the old one |
| EscCmd.SendStep | esctest/escio.py:111-151 | sending succeeds exactly when the text is Latin-1 and a CSI has a final; then the text is appended to the output and, when the command is mirrored, to an attached side channel; a failure changes nothing |
| EscCmd.Send | esctest/escio.py:111-151 | the new state is the send step of the old one |
| EscCmd.PyInt | esctest/esccmd.py:177 | an int is itself, None is a TypeError, a string converts exactly when it parses |
| EscCmd.Single | esctest/esccmd.py:148-154 | a one-parameter builder fails exactly below its VT level; otherwise it sends the argument, or nothing for None, and is mirrored |
| EscCmd.OneParamShape | esctest/esccmd.py:222-298 | every one-parameter builder's final is one character that is neither a digit nor `;`, and its prefix is at most one such character |
| EscCmd.OmittedIsDefault | esctest/esccmd.py:148-154 | omitting the argument and passing None send the same text |
| EscCmd.SingleRoundTrip | esctest/esccmd.py:571-606 | what a one-parameter builder sends with a number is read back as that number |
| EscCmd.CUP | esctest/esccmd.py:278-290 | CUP is a mirrored CSI with final H and no prefix |
| EscCmd.HVP | esctest/esccmd.py:646-658 | HVP uses final f exactly when given a point and H otherwise |
| EscCmd.CupForms | esctest/esccmd.py:278-290 | no arguments send `CSI H`, a column alone `CSI ;col H`, a row alone `CSI row H` |
| EscCmd.CursorRoundTrip | esctest/esccmd.py:278-290 | CUP and HVP of a point are read back as row then column |
| EscCmd.DECSTBM | esctest/esccmd.py:557-565 | the margins are passed through when given, and the command is mirrored |
| EscCmd.DecstbmRoundTrip | esctest/esccmd.py:557-565 | both margins read back as given; a bottom margin alone is sent after an empty field |
| EscCmd.DecstbmReset | esctest/esccmd.py:557-565 | no margins send `CSI r` |
| EscCmd.DECRQCRA | esctest/esccmd.py:421-435 | fails below VT level 4; otherwise a CSI with intermediate `*` and final `y` that is kept off the side channel |
| EscCmd.DecrqcraParams | esctest/esccmd.py:421-435 | the parameters are the id, the page, and the rectangle's top, left, bottom and right when a rectangle is given |
| EscCmd.DecrqcraText | esctest/esccmd.py:421-435 | the one-cell request is `CSI id;0;y;x;y;x *y` |
| EscCmd.XTERM_WINOPS | esctest/esccmd.py:823-839 | trailing None arguments are dropped, the earlier ones kept, and a report is requested exactly for operations 11, 13, 14, 18, 19, 20, 21 |
| EscCmd.WinopsTruncationInvisible | esctest/esccmd.py:823-839 | dropping the trailing None arguments does not change the text sent |
| EscCmd.WinopsExamples | esctest/esccmd.py:823-839 | operation 18 sends `CSI 18t` off the side channel; operation 8 with only a width sends `CSI 8;;80t` on it |
| EscCmd.DECDSR | esctest/esccmd.py:364-373 | DECDSR sends `?`, then Ps and the id only when Ps is given, with final n; the side-channel flag is the caller's |
| EscCmd.DecdsrIdNeedsPs | esctest/esccmd.py:364-373 | without Ps the id is not sent |
| EscCmd.DSR | esctest/esccmd.py:579-585 | DSR sends Ps when given with final n, and the side-channel flag is the caller's |
| EscCmd.DECRQM | esctest/esccmd.py:437-443 | fails below VT level 3; otherwise the mode with intermediate `$`, final p, and prefix `?` for a DEC mode |
| EscCmd.DECRQSS | esctest/esccmd.py:445-447 | fails below VT level 3; otherwise the DCS `$q` with the setting |
| EscCmd.DECSCL | esctest/esccmd.py:484-491 | the level, then the 7-bit flag when given, with intermediate `"` and final p |
| EscCmd.DECSERA | esctest/esccmd.py:517-520 | fails exactly below VT level 4 |
| EscCmd.DECSLRM | esctest/esccmd.py:526-529 | below VT level 4 raises InsufficientVTLevel and sends nothing; otherwise a CSI with no prefix or intermediate, the left and right margins in that order and final `s`, mirrored to the side channel |
| EscCmd.MarginsRoundTrip | esctest/esccmd.py:526-529 | from VT level 4, the left and right margins are sent with final `s` and read back in order |
| EscCmd.ReverseWraparound | esctest/esccmd.py:841-850 | mode 1045 exactly when the xterm reverse-wrap option is at least 383, mode 45 otherwise |
| EscCmd.SideChannelFlags | esctest/esccmd.py:156-221 | DECDSR, DSR and the title setters are kept off the side channel exactly when the caller asks; XTERM_WINOPS exactly for operations 11, 13, 14, 18, 19, 20, 21; DECRQCRA always; the colour commands, the one-parameter builders, CUP, HVP, DECSTBM, DECSCL, DECRQSS and DECRQM are mirrored |
| EscCmd.MirroredBuilders | esctest/esccmd.py:702-711 | DECSET, DECRESET, SGR, SM_Title, RM_Title, DECERA, DECFRA, DECCRA, DECSERA, DECSLRM, DECDHL, ManipulateSelectionData without data, the colour resets, every bare C1 control and every two-character escape are mirrored |
| EscCmd.ManipulateSelectionData | esctest/esccmd.py:680-684 | OSC 52 with the selection when no data is given; any data raises AttributeError |
| EscCmd.PlainBuilders | esctest/esccmd.py:144-146 | a bare C1 builder sends one 8-bit control in 8-bit mode and a 7-bit one in 7-bit mode (both directions), standing for the control's code |
| EscCmd.DecdhlForm | esctest/esccmd.py:358-362 | DECDHL sends ESC `#` and the decimal text of its argument |
| EscCmd.FixedForms | esctest/esccmd.py:567-569 | DECSTR, SCOSC, SCORC, RIS, DECALN, DECSC, DECRC, DECBI and DECFI send their fixed texts |
| EscCmd.ModeRoundTrip | esctest/esccmd.py:449-451 | DECSET, DECRESET and DECRQM pass the mode number through and it reads back unchanged |
| EscCmd.RectangleRoundTrip | esctest/esccmd.py:384-386 | DECERA and DECSERA pass the corners through in order |
| EscCmd.FillRoundTrip | esctest/esccmd.py:392-394 | DECFRA passes the character and the corners through in order |
| EscCmd.SgrRoundTrip | esctest/esccmd.py:767-769 | SGR's numeric attributes read back unchanged, trailing defaults not sent |
| EscCmd.TitleRoundTrip | esctest/esccmd.py:209-211 | a window title without ESC is read back behind prefix 2 |
| EscCmd.ChangeColor | esctest/esccmd.py:156-164 | OSC 4 followed by the arguments, mirrored even for a query |
| EscCmd.ChangeDynamicColor | esctest/esccmd.py:166-174 | OSC with the arguments alone, mirrored even for a query |
| EscCmd.SpecialColorHead | esctest/esccmd.py:177-180 | no leading mode number when the first argument is 10 or more, the mode otherwise; a first argument that is not a number raises |
| EscCmd.ChangeSpecialColor2 | esctest/esccmd.py:196-207 | the OSC 5 variant, always mirrored |
| EscCmd.Rewritten | esctest/esccmd.py:187-193 | parameters before the start are kept; each later one is offset when it is a number below 9 and kept otherwise |
| EscCmd.OffsetFrom | esctest/esccmd.py:187-193 | the rewrite keeps the session valid and the parameter count |
| EscCmd.OffsetCached | esctest/esccmd.py:187-193 | with the colour count cached, the rewrite adds it to every small number and changes no state |
| EscCmd.OffsetFromSpec | esctest/esccmd.py:187-193 | the rewrite asks for the colour count only when some later parameter needs it, and then offsets by that count |
| EscCmd.ChangeSpecialColorStep | esctest/esccmd.py:176-194 | a first argument that is not a number raises that error and leaves the session unchanged; the session stays valid |
| EscCmd.ChangeSpecialColor | esctest/esccmd.py:176-194 | the new state is the special-colour step of the old one (the rewrite loop carries its invariant) |
| EscCmd.ChangeSpecialColorSends | esctest/esccmd.py:176-194 | what is sent is OSC 4, the arguments with small numbers offset by the colour count, mirrored |
| EscCmd.SpecialColorQuery | esctest/tests/change_special_color.py:24 | querying colours 0 and 1 sends `4;n;?;n+1;?` for a colour count n |
| Checksum.DigitPrefix | esctest/escutil.py:318-320 | the longest run of leading digits: a prefix, all digits, followed by a non-digit or the end |
| Checksum.CutFrom | esctest/escutil.py:320 | the search from position i keeps a prefix of the reply at least i long |
| Checksum.CutFromFirstMatch | esctest/escutil.py:320 | the search from position i stops at the first place from i on where `[^0-9].*$` matches (a non-digit with no newline after it except a final one), or keeps the whole reply when there is none |
| Checksum.CutAtNonDigit | esctest/escutil.py:320 | `re.sub(r'[^0-9].*$', "", s)` keeps a prefix of the reply |
| Checksum.CutAtFirstMatch | esctest/escutil.py:320 | the substitution keeps exactly the reply before the pattern's first match: the pattern matches where the cut ends, and at no earlier position |
| Checksum.CutWithoutNewline | esctest/escutil.py:320 | for a reply without a newline the cut is exactly the leading digits |
| Checksum.CutAtLastLine | esctest/escutil.py:320 | a line, a newline and a non-empty last line, with no other newline, are cut at that newline: the whole first line is kept, digits or not |
| Checksum.ITerm2SecondLine | esctest/escutil.py:316-331 | for iTerm2, a two-line reply not starting with the request's id keeps its whole first line as the id, so the `!~` check fails unless `--force` is set; forced, the checksum is the last line without its first character, read as hex |
| Checksum.CutAcrossNewline | esctest/escutil.py:316-331 | for iTerm2 the reply `5!~1`, newline, `2` to request 7 keeps `5!~1` as its id (more than its digits) and fails the `!~` check; forced, `5!~1`, newline, `AB` gives 11 |
| Checksum.ReplyId | esctest/escutil.py:316-322 | the own id when the reply starts with it; for iTerm2 the reply cut at the first match of `[^0-9].*$`; BadResponse for other terminals |
| Checksum.ParseChecksum | esctest/escutil.py:316-331 | an id error is passed on; otherwise `!~` must follow and the rest is parsed as hex |
| Checksum.ChecksumStep | esctest/escutil.py:309-331 | the id is consumed before anything else; below VT level 4 nothing is sent |
| Checksum.GetChecksumOfRect | esctest/escutil.py:309-331 | the new state is the checksum step of the old one |
| Checksum.Normalize | esctest/escutil.py:277-282 | the value is unchanged except for xterm before patch 279 |
| Checksum.OldXtermNegates | esctest/escutil.py:277-282 | for xterm before patch 279 the reply 0x10000 − v gives back v, except that a reply of a space where NUL was expected gives 0 |
| Checksum.DisplayOf | esctest/escutil.py:286-289 | a negative value raises ValueError; a value below 256 shows as one character, a larger one as nothing |
| Checksum.AppendAt | esctest/escutil.py:284-296 | appends to row y, opening it when y is the next row; leaves every other row as it was; a row beyond the next raises IndexError |
| Checksum.Mismatches | esctest/escutil.py:298-304 | exactly the cells whose expected and actual values differ |
| Checksum.Record | esctest/escutil.py:284-304 | the cell is recorded, and listed as an error exactly when its values differ |
| Checksum.CellStep | esctest/escutil.py:257-304 | one point, given the outcome of its checksum request: a line of the wrong width raises InternalError(WidthMismatch) with the rectangle's width, the line's index and its length, and leaves the session as it was; otherwise the session is the one after the request, a failed request is the step's failure, and on success exactly one cell is appended, expecting the line's character at the point and holding the checksum, normalised, and it is appended to the errors exactly when the two values differ |
| Checksum.PointChecksum | esctest/escutil.py:272-275 | the request for a single point uses exactly one id and leaves the session valid |
| Checksum.CellRecorded | esctest/escutil.py:257-282 | a recorded cell lies on a line as wide as the rectangle, expects that line's character at its point, and holds the point's checksum, normalised |
| Checksum.ScreenCheckSpec | esctest/escutil.py:237-307 | below VT level 4, or with a height mismatch, it fails before any I/O |
| Checksum.ScreenResult | esctest/escutil.py:306-307 | with every cell read, it fails exactly when some cell mismatched and `--force` is not set |
| Checksum.AssertScreenCharsInRectEqual | esctest/escutil.py:237-307 | the new state is the screen-check step of the old one (the cell loop carries its invariant) |
| Checksum.ParseChecksumRoundTrip | esctest/escutil.py:316-331 | the reply `id!~hex` to one's own id parses to the hex value |
| Checksum.ITerm2OwnId | esctest/escutil.py:318-320 | iTerm2's reply with another id still parses to its hex value |
| Checksum.MissingSeparatorFails | esctest/escutil.py:326 | a reply without `!~` after the id fails unless `--force` is set |
| Checksum.RequestLatin1 | esctest/escutil.py:313 | the DECRQCRA request can always be written |
| Checksum.ChecksumRead | esctest/escutil.py:309-331 | with the DCS body waiting, the step sends DECRQCRA for the next id, page 0 and the rectangle, consumes the reply, returns what ParseChecksum makes of the body, and advances the id by one |
| Checksum.ChecksumReply | esctest/escutil.py:309-331 | with the reply `id!~hex` waiting, the request is sent, the reply consumed and the hex value returned, with the next id one higher |
| Checksum.CellsIds | esctest/escutil.py:257-275 | the cell loop uses one id per cell read |
| Checksum.CellsSeen | esctest/escutil.py:257-304 | the cell loop records the points in order |
| Checksum.CellsExpected | esctest/escutil.py:257-270 | every recorded cell lies on a line as wide as the rectangle and expects that line's character at its point |
| Checksum.CellsErrors | esctest/escutil.py:298-304 | the error list is exactly the mismatching cells seen |
| Checksum.ScreenVerdict | esctest/escutil.py:237-307 | with every read succeeding, the cells are the rectangle's points in order, each expecting its line's character, one id each; the check fails exactly when some cell mismatches and `--force` is not set, with a ChecksumException listing exactly the mismatches |
| Numerals.Ungroup | esctest/esccmd.py:177 | digits grouped by single underscores between digits give the digits alone; a leading or trailing underscore is rejected; plain digits are unchanged |
| Numerals.GroupedDigits | esctest/esccmd.py:177 | `int("1_0") == 10`, `int("1__0")` raises, `int("0x_f", 16) == 15` |
| Numerals.ParseIntOfIntToString | esctest/esccmd.py:189-191 | `int(str(v)) == v` for every integer |
| Numerals.ParseHexOfDigits | esctest/escutil.py:331 | `int(h, 16)` of hex digits is their value |

## Left out

- Terminal I/O: `Init`, `Shutdown`, raw mode and the `select` timeout. The replies are one input string; a read that would wait for more data fails as if the input ended.
- The side channel's file: attaching starts an empty record and the record is a string; opening, flushing and closing files are not modelled.
- `escoding` is taken to be Latin-1, so writing any character above U+00FF raises and sends nothing.
- Logging (`LogDebug`, `LogInfo`) and the text of exception messages. Errors carry their kind and, where the code passes them, their values.
- `gHaveAsserted` and the other bookkeeping flags that only the test runner reads.
- The decorators (`vtLevel`, `knownBug`, `optionRequired`) and command-line parsing beyond the fields of `Config`.
- The helpers that query the live terminal and only combine the modelled operations: `GetIconTitle`, `GetWindowTitle`, `CanQueryShellSize`, `GetWindowSizePixels`, `GetScreenSizePixels`, `GetFrameSizePixels`, `GetCharSizePixels`, `GetWindowPosition`, `GetIsIconified`, `GetCursorPosition`, `GetScreenSize`, `GetDisplaySize`. `GetDisplaySize` also calls the external `xwininfo` program.
- Normalize: its own contract states only the case where the value is unchanged; the old-xterm case is stated by `Checksum.OldXtermNegates`.
- ChangeSpecialColor2: its contract states the mirroring and the OSC form only; the parameter list is stated by `EscCmd.SpecialColorHead`.
- PyInt: `int()` also accepts the non-ASCII Unicode decimal digits and whitespace outside Latin-1; the model accepts ASCII digits only. `ColorsFromReply` and `ParseChecksum` only see Latin-1 text, where these do not occur.
- Python's `str.isdigit` is exact on Latin-1 input (0–9, ², ³, ¹), which the session's reply stream is required to be; wider Unicode digits are not modelled.
