/** Hunks of a unified diff, and the errors of the patch tool. */
module Patch {
  import opened Basics

  datatype Op = Context | Delete | Insert

  datatype HunkLine = HunkLine(op: Op, text: string)

  datatype Hunk = Hunk(header: string, oldStart: nat, oldCount: nat, newCount: nat, lines: seq<HunkLine>)

  datatype PatchError =
    | BadStart          // neither file headers nor a hunk first
    | MissingNewHeader  // "--- " without "+++ "
    | UnsupportedPath   // empty or /dev/null
    | Rename
    | PathMismatch
    | MultiFile
    | OutsideHunk
    | BadHeader
    | NoNewlineMarker
    | BadLine
    | CountMismatch
    | NoHunks
    | ContextMismatch
    | HashMismatch
    | InvalidPath       // the path itself was refused
    | FileNotFound
    | TooLarge
    | WriteFailed

  /** The texts a hunk expects to find: its context and deleted lines. */
  function OldSide(lines: seq<HunkLine>): seq<string> {
    if |lines| == 0 then []
    else (if lines[0].op.Insert? then [] else [lines[0].text]) + OldSide(lines[1..])
  }

  /** The texts a hunk leaves behind: its context and inserted lines. */
  function NewSide(lines: seq<HunkLine>): seq<string> {
    if |lines| == 0 then []
    else (if lines[0].op.Delete? then [] else [lines[0].text]) + NewSide(lines[1..])
  }

  function Delta(h: Hunk): int {
    |NewSide(h.lines)| - |OldSide(h.lines)|
  }
}
