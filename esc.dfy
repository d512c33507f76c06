/** Control-character constants, the settings the protocol layer consults,
    and the two conventions for the content of an erased or a blank cell. */
module Esc {

  const NUL: char := 0 as char
  const BEL: char := 7 as char
  const BS: char := 8 as char
  const TAB: char := 9 as char
  const LF: char := 10 as char
  const VT: char := 11 as char
  const FF: char := 12 as char
  const CR: char := 13 as char
  const ESC: char := 27 as char

  /** Announce 7-bit and 8-bit C1 controls (always sent in their 7-bit form). */
  const S7C1T: string := [ESC, ' ', 'F']
  const S8C1T: string := [ESC, ' ', 'G']

  /** The VT level before a test raises it. */
  const DefaultVtLevel: int := 1

  /** The terminals the tester knows about. */
  datatype Terminal = ITerm2Beta | ITerm2 | Xterm

  /** The settings the core reads: four command-line options and the
      process-wide VT level. */
  datatype Config = Config(
    expectedTerminal: Terminal,
    xtermChecksum: int,
    xtermReverseWrap: int,
    force: bool,
    vtLevel: int)

  /** The settings when no option is given. */
  const DefaultConfig: Config := Config(Xterm, 0, 0, false, DefaultVtLevel)

  /** What an erased cell holds: a space once xterm computes checksums as in
      its patch #334, NUL before. */
  function Empty(cfg: Config): (c: char)
    ensures c == ' ' <==> cfg.xtermChecksum >= 334
    ensures c == NUL <==> cfg.xtermChecksum < 334
  {
    if cfg.xtermChecksum >= 334 then ' ' else NUL
  }

  /** What a cell where a space was written holds: a space for xterm, NUL
      for the other terminals. */
  function Blank(cfg: Config): (c: char)
    ensures c == ' ' <==> cfg.expectedTerminal == Xterm
    ensures c == NUL <==> cfg.expectedTerminal != Xterm
  {
    if cfg.expectedTerminal == Xterm then ' ' else NUL
  }

  /** Both cell conventions yield one of the two codes the checksum fix-up
      reconciles, 0 and 32. */
  lemma CellCodes(cfg: Config)
    ensures Empty(cfg) as int in {0, 32} && Blank(cfg) as int in {0, 32}
    ensures DefaultConfig.xtermChecksum < 334 && Empty(DefaultConfig) == NUL
  {
  }

  /** S7C1T and S8C1T are three-character 7-bit sequences that differ only
      in their final character. */
  lemma ModeAnnouncements()
    ensures |S7C1T| == 3 && |S8C1T| == 3 && S7C1T[0] == ESC && S8C1T[0] == ESC
    ensures S7C1T[..2] == S8C1T[..2] && S7C1T[2] == 'F' && S8C1T[2] == 'G'
  {
  }
}
