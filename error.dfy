/**
 * The program's error type: its message, its underlying cause and the exit
 * code the process ends with.
 */
module Errors {
  import opened Base

  /** An underlying error, known only by the text it displays. */
  datatype Cause = Cause(message: string)

  datatype Error =
    | InvalidLevel(section: Option<string>, field: string, source: Cause)
    | MissingDataDir
    | MissingSpawnChunk
    | UnknownCliArg(arg: string)
    | UnknownLevel(path: string, source: Cause)

  /** The field named in an `InvalidLevel` message: the section glued to the field, with no separator. */
  function FieldName(section: Option<string>, field: string): (name: string)
    ensures section.None? ==> name == field
    ensures section.Some? ==> |name| == |section.value| + |field| && name[..|section.value|] == section.value && name[|section.value|..] == field
  {
    match section
    case None => field
    case Some(s) => s + field
  }

  /** `impl Display for Error`: one fixed template per variant. */
  function Display(e: Error): (msg: string)
    ensures |msg| > 0
    ensures e.InvalidLevel? || e.UnknownLevel? ==> |msg| > |e.source.message| && msg[|msg| - |e.source.message|..] == e.source.message
    ensures e.UnknownCliArg? ==> |msg| > |e.arg| + 1 && msg[|msg| - |e.arg| - 1..] == e.arg + "\""
  {
    match e
    case InvalidLevel(section, field, source) => "invalid level field `" + FieldName(section, field) + "`: " + source.message
    case MissingDataDir => "could not find data directory"
    case MissingSpawnChunk => "there are no spawn chunks in the level"
    case UnknownCliArg(arg) => "unknown command line interface \"" + arg + "\""
    case UnknownLevel(path, source) => "unable to load level at \"" + path + "\": " + source.message
  }

  /** `Error::source`: the underlying error of the two variants that carry one. */
  function Source(e: Error): (r: Option<Cause>)
    ensures r.Some? <==> e.InvalidLevel? || e.UnknownLevel?
    ensures r.Some? ==> r.value == e.source
  {
    match e
    case InvalidLevel(_, _, source) => Some(source)
    case UnknownLevel(_, source) => Some(source)
    case _ => None
  }

  /** `From<Error> for i32`: 2 for a missing directory, a bad argument or an unknown level, 3 for a bad level. */
  function ExitCode(e: Error): (code: int)
    ensures code == 2 <==> e.MissingDataDir? || e.UnknownCliArg? || e.UnknownLevel?
    ensures code == 3 <==> e.InvalidLevel? || e.MissingSpawnChunk?
  {
    match e
    case MissingDataDir | UnknownCliArg(_) | UnknownLevel(_, _) => 0x2
    case InvalidLevel(_, _, _) | MissingSpawnChunk => 0x3
  }

  /** The variant, as an index 0 to 4 in declaration order. */
  function Variant(e: Error): nat {
    match e
    case InvalidLevel(_, _, _) => 0
    case MissingDataDir => 1
    case MissingSpawnChunk => 2
    case UnknownCliArg(_) => 3
    case UnknownLevel(_, _) => 4
  }

  /** The first three characters of each template. */
  function Opening(variant: nat): string {
    if variant == 0 then "inv"
    else if variant == 1 then "cou"
    else if variant == 2 then "the"
    else if variant == 3 then "unk"
    else "una"
  }

  /** Every message opens with its variant's template. */
  lemma DisplayOpening(e: Error)
    ensures |Display(e)| >= 3 && Display(e)[..3] == Opening(Variant(e))
  {
  }

  /** A message tells which variant it came from: different variants never display alike. */
  lemma DisplayIdentifiesVariant(a: Error, b: Error)
    requires Display(a) == Display(b)
    ensures Variant(a) == Variant(b)
  {
    DisplayOpening(a);
    DisplayOpening(b);
  }

  /** The exit code is never 0: every error ends the process as a failure. */
  lemma ExitCodeIsFailure(e: Error)
    ensures ExitCode(e) != 0 && (ExitCode(e) == 2 || ExitCode(e) == 3)
  {
  }
}
