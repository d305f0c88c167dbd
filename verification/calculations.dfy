/** The calculation side of the plugin: the exit-code table registered by
    `define`, and the submission plan `prepare_for_submission` builds from the
    input format and the HDF5 option. */
module Calculations {
  import opened Wrappers

  // ---------------------------------------------------------------------
  // Exit codes
  // ---------------------------------------------------------------------

  /** A registered exit code: its numeric status and its label. */
  datatype ExitCode = ExitCode(status: nat, name: string)

  /** An entry of the generator's own error catalogue. */
  datatype ExternalError = ExternalError(name: string, description: string)

  const NO_RETRIEVED_FOLDER: string := "ERROR_NO_RETRIEVED_FOLDER"
  const OUTPUT_FILE_MISSING: string := "ERROR_OUTPUT_FILE_MISSING"
  const OUTPUT_FILE_UNREADABLE: string := "ERROR_OUTPUT_FILE_UNREADABLE"
  const RUN_NOT_COMPLETED: string := "ERROR_RUN_NOT_COMPLETED"
  const UNKNOWN_ERROR: string := "ERROR_UNKNOWN_ERROR"
  /** Named by the parser, registered only if the error catalogue has an
      entry of that name. */
  const MULTIPLE_ERRORS: string := "ERROR_MULTIPLE_ERRORS"

  /** The five codes registered before the catalogue, in registration order. */
  const FIXED_CODES: seq<ExitCode> := [
    ExitCode(301, NO_RETRIEVED_FOLDER),
    ExitCode(302, OUTPUT_FILE_MISSING),
    ExitCode(303, OUTPUT_FILE_UNREADABLE),
    ExitCode(501, RUN_NOT_COMPLETED),
    ExitCode(502, UNKNOWN_ERROR)
  ]

  /** Python's `str.upper` on ASCII letters; other characters are unchanged. */
  function UpperChar(c: char): (u: char)
    ensures 'a' <= c <= 'z' ==> 'A' <= u <= 'Z' && u as int - c as int == 'A' as int - 'a' as int
    ensures !('a' <= c <= 'z') ==> u == c
  {
    if 'a' <= c <= 'z' then (c as int - 'a' as int + 'A' as int) as char else c
  }

  function Upper(s: string): (u: string)
    ensures |u| == |s|
    ensures forall i :: 0 <= i < |s| ==> u[i] == UpperChar(s[i])
  {
    seq(|s|, i requires 0 <= i < |s| => UpperChar(s[i]))
  }

  /** The exit-code table `define` registers, in registration order: the
      five fixed codes, then catalogue entry `i` under status `500 + i + 3`
      and its upper-cased name. */
  function Define(errors: seq<ExternalError>): (codes: seq<ExitCode>)
    ensures |codes| == |FIXED_CODES| + |errors|
    ensures codes[..|FIXED_CODES|] == FIXED_CODES
    ensures forall i :: 0 <= i < |errors| ==>
      codes[|FIXED_CODES| + i] == ExitCode(503 + i, Upper(errors[i].name))
  {
    FIXED_CODES + seq(|errors|, i requires 0 <= i < |errors| => ExitCode(500 + i + 3, Upper(errors[i].name)))
  }

  /** No two registered codes share a status, and every catalogue code lies
      above all five fixed ones. */
  lemma StatusesDistinct(errors: seq<ExternalError>)
    ensures var codes := Define(errors);
      forall i, j :: 0 <= i < j < |codes| ==> codes[i].status != codes[j].status
    ensures var codes := Define(errors);
      forall i :: |FIXED_CODES| <= i < |codes| ==> codes[i].status > 502
  {
    var codes := Define(errors);
    forall i, j | 0 <= i < j < |codes|
      ensures codes[i].status != codes[j].status
    {
      if i < |FIXED_CODES| {
        assert codes[i] == FIXED_CODES[i];
        if j < |FIXED_CODES| {
          assert codes[j] == FIXED_CODES[j];
        } else {
          assert codes[j] == ExitCode(503 + (j - |FIXED_CODES|), Upper(errors[j - |FIXED_CODES|].name));
        }
      } else {
        assert codes[i].status == 503 + (i - |FIXED_CODES|);
        assert codes[j].status == 503 + (j - |FIXED_CODES|);
      }
    }
  }

  /** A status names at most one catalogue entry: status `503 + i` is entry `i`. */
  lemma ExternalStatusDeterminesEntry(errors: seq<ExternalError>, status: nat)
    requires 503 <= status < 503 + |errors|
    ensures exists k :: 0 <= k < |Define(errors)| && Define(errors)[k].status == status
    ensures forall k :: 0 <= k < |Define(errors)| && Define(errors)[k].status == status ==>
      Define(errors)[k].name == Upper(errors[status - 503].name)
  {
    var codes := Define(errors);
    var i := status - 503;
    assert codes[|FIXED_CODES| + i].status == status;
    StatusesDistinct(errors);
  }

  /** The exit code a label resolves to. Registration overwrites a label
      already present, so the last registration of a label wins. */
  function Lookup(codes: seq<ExitCode>, key: string): (r: Option<ExitCode>)
    ensures r.None? <==> forall i :: 0 <= i < |codes| ==> codes[i].name != key
    ensures r.Some? ==>
      exists i :: && 0 <= i < |codes| && codes[i] == r.value && r.value.name == key
                  && forall j :: i < j < |codes| ==> codes[j].name != key
  {
    if |codes| == 0 then None
    else if codes[|codes| - 1].name == key then Some(codes[|codes| - 1])
    else Lookup(codes[..|codes| - 1], key)
  }

  /** The lookup finds the last code registered under a label. */
  lemma {:induction false} LookupLast(codes: seq<ExitCode>, m: nat)
    requires m < |codes|
    requires forall j :: m < j < |codes| ==> codes[j].name != codes[m].name
    ensures Lookup(codes, codes[m].name) == Some(codes[m])
    decreases |codes|
  {
    if m < |codes| - 1 {
      var prefix := codes[..|codes| - 1];
      assert prefix[m] == codes[m];
      LookupLast(prefix, m);
    }
  }

  /** A fixed label resolves to its own fixed code unless a catalogue entry's
      upper-cased name re-registers it. */
  lemma FixedCodeResolves(errors: seq<ExternalError>, k: nat)
    requires k < |FIXED_CODES|
    requires forall i :: 0 <= i < |errors| ==> Upper(errors[i].name) != FIXED_CODES[k].name
    ensures Lookup(Define(errors), FIXED_CODES[k].name) == Some(FIXED_CODES[k])
  {
    var codes := Define(errors);
    var n := |FIXED_CODES|;
    assert codes[k] == FIXED_CODES[k];
    forall j | k < j < |codes|
      ensures codes[j].name != codes[k].name
    {
      if j < n {
        assert codes[j] == FIXED_CODES[j];
      } else {
        assert codes[j].name == Upper(errors[j - n].name);
      }
    }
    LookupLast(codes, k);
  }

  /** A catalogue label resolves to the status of its last registration. */
  lemma ExternalCodeResolves(errors: seq<ExternalError>, i: nat)
    requires i < |errors|
    requires forall j :: i < j < |errors| ==> Upper(errors[j].name) != Upper(errors[i].name)
    ensures Lookup(Define(errors), Upper(errors[i].name)) == Some(ExitCode(503 + i, Upper(errors[i].name)))
  {
    var codes := Define(errors);
    var n := |FIXED_CODES|;
    CatalogueNotReregistered(errors, i);
    LookupLast(codes, n + i);
  }

  /** No code registered after catalogue entry `i` carries its label when no
      later entry has the same upper-cased name. */
  lemma CatalogueNotReregistered(errors: seq<ExternalError>, i: nat)
    requires i < |errors|
    requires forall j :: i < j < |errors| ==> Upper(errors[j].name) != Upper(errors[i].name)
    ensures var codes := Define(errors);
      && codes[|FIXED_CODES| + i] == ExitCode(503 + i, Upper(errors[i].name))
      && forall j :: |FIXED_CODES| + i < j < |codes| ==> codes[j].name != codes[|FIXED_CODES| + i].name
  {
    var codes := Define(errors);
    var n := |FIXED_CODES|;
    forall j | n + i < j < |codes|
      ensures codes[j].name != codes[n + i].name
    {
      var e := j - n;
      assert codes[j] == ExitCode(503 + e, Upper(errors[e].name));
    }
  }

  /** The multiple-errors label is registered exactly when some catalogue
      entry's upper-cased name is that label. */
  lemma MultipleErrorsRegistered(errors: seq<ExternalError>)
    ensures Lookup(Define(errors), MULTIPLE_ERRORS).Some? <==>
      exists i :: 0 <= i < |errors| && Upper(errors[i].name) == MULTIPLE_ERRORS
  {
    var codes := Define(errors);
    var n := |FIXED_CODES|;
    if exists i :: 0 <= i < |errors| && Upper(errors[i].name) == MULTIPLE_ERRORS {
      var i :| 0 <= i < |errors| && Upper(errors[i].name) == MULTIPLE_ERRORS;
      assert codes[n + i].name == MULTIPLE_ERRORS;
    } else {
      forall j | 0 <= j < |codes|
        ensures codes[j].name != MULTIPLE_ERRORS
      {
        if j < n {
          assert codes[j] == FIXED_CODES[j];
        } else {
          assert codes[j].name == Upper(errors[j - n].name);
        }
      }
    }
  }

  // ---------------------------------------------------------------------
  // Submission
  // ---------------------------------------------------------------------

  /** The options `prepare_for_submission` reads. */
  datatype Options = Options(
    inputFilestem: string,
    inputFormat: string,
    outputFilename: string,
    withHdf5: bool,
    hdf5Filename: string)

  /** Which rendering of the input parameters is written to the input file. */
  datatype Rendering = DatText | TomlText

  /** The input file written into the submission folder. */
  datatype InputFile = InputFile(name: string, rendering: Rendering)

  /** How the program is invoked. */
  datatype CodeInfo = CodeInfo(cmdlineParams: seq<string>, stdinName: Option<string>, stdoutName: string)

  /** What the submission hands to the engine. */
  datatype CalcInfo = CalcInfo(inputFile: InputFile, codesInfo: seq<CodeInfo>, retrieveList: seq<string>)

  /** The `ValueError` raised for an input format that is not supported. */
  datatype SubmissionError = UnsupportedFormat(message: string)

  /** The input-dependent part of the invocation. */
  datatype InputPlan = InputPlan(file: InputFile, stdinName: Option<string>, cmdlineParams: seq<string>)

  predicate SupportedFormat(format: string)
  {
    format == "stdin" || format == "dat" || format == "toml"
  }

  /** The format branch: file name, rendering, stdin redirect and input
      arguments for each supported format; any other format is refused. */
  function PlanInput(stem: string, format: string): (r: Result<InputPlan, SubmissionError>)
    ensures r.Success? <==> SupportedFormat(format)
  {
    if format == "stdin" then
      var name := stem + ".in";
      Success(InputPlan(InputFile(name, DatText), Some(name), []))
    else if format == "dat" then
      var name := stem + ".dat";
      Success(InputPlan(InputFile(name, DatText), None, ["-i", name]))
    else if format == "toml" then
      var name := stem + ".toml";
      Success(InputPlan(InputFile(name, TomlText), None, ["-t", name]))
    else
      Failure(UnsupportedFormat("Unsupported input format: " + format))
  }

  /** The HDF5 command-line arguments: present exactly when HDF5 output is
      requested, and then the `-h5` flag followed by the HDF5 file name. */
  function Hdf5Params(opts: Options): (ps: seq<string>)
    ensures opts.withHdf5 <==> |ps| > 0
    ensures |ps| > 0 ==> |ps| == 2 && ps[0] == "-h5" && ps[1] == opts.hdf5Filename
  {
    if opts.withHdf5 then ["-h5", opts.hdf5Filename] else []
  }

  /** The HDF5 file to retrieve: at most one entry, the HDF5 file name, there
      exactly when HDF5 output is requested. */
  function Hdf5Retrieve(opts: Options): (fs: seq<string>)
    ensures |fs| <= 1
    ensures opts.withHdf5 <==> opts.hdf5Filename in fs
    ensures forall f :: f in fs ==> f == opts.hdf5Filename
  {
    if opts.withHdf5 then [opts.hdf5Filename] else []
  }

  /** The submission plan: input arguments followed by HDF5 arguments, the
      input redirect of the format, stdout to the output file, and the output
      file (then the HDF5 file, if any) retrieved. */
  function PrepareForSubmission(opts: Options): (r: Result<CalcInfo, SubmissionError>)
    ensures r.Success? <==> SupportedFormat(opts.inputFormat)
    ensures r.Failure? ==> r.error == UnsupportedFormat("Unsupported input format: " + opts.inputFormat)
    ensures r.Success? ==>
      && |r.value.codesInfo| == 1
      && r.value.codesInfo[0].stdoutName == opts.outputFilename
      && |r.value.retrieveList| > 0
      && r.value.retrieveList[0] == opts.outputFilename
      && (opts.hdf5Filename in r.value.retrieveList[1..] <==> opts.withHdf5)
      && |r.value.retrieveList| == (if opts.withHdf5 then 2 else 1)
  {
    match PlanInput(opts.inputFilestem, opts.inputFormat)
    case Failure(e) => Failure(e)
    case Success(plan) =>
      var code := CodeInfo(plan.cmdlineParams + Hdf5Params(opts), plan.stdinName, opts.outputFilename);
      Success(CalcInfo(plan.file, [code], [opts.outputFilename] + Hdf5Retrieve(opts)))
  }

  /** Format `stdin`: the file is `<stem>.in`, rendered as dat text, redirected
      to stdin, and no input argument is passed. */
  lemma PrepareStdin(opts: Options)
    requires opts.inputFormat == "stdin"
    ensures var r := PrepareForSubmission(opts);
      && r.Success?
      && r.value.inputFile == InputFile(opts.inputFilestem + ".in", DatText)
      && r.value.codesInfo[0].stdinName == Some(opts.inputFilestem + ".in")
      && r.value.codesInfo[0].cmdlineParams == Hdf5Params(opts)
  {
  }

  /** Format `dat`: the file is `<stem>.dat`, rendered as dat text, no stdin
      redirect, and the input arguments are `-i <file>`. */
  lemma PrepareDat(opts: Options)
    requires opts.inputFormat == "dat"
    ensures var r := PrepareForSubmission(opts);
      && r.Success?
      && r.value.inputFile == InputFile(opts.inputFilestem + ".dat", DatText)
      && r.value.codesInfo[0].stdinName == None
      && r.value.codesInfo[0].cmdlineParams == ["-i", opts.inputFilestem + ".dat"] + Hdf5Params(opts)
  {
  }

  /** Format `toml`: the file is `<stem>.toml`, rendered as TOML, no stdin
      redirect, and the input arguments are `-t <file>`. */
  lemma PrepareToml(opts: Options)
    requires opts.inputFormat == "toml"
    ensures var r := PrepareForSubmission(opts);
      && r.Success?
      && r.value.inputFile == InputFile(opts.inputFilestem + ".toml", TomlText)
      && r.value.codesInfo[0].stdinName == None
      && r.value.codesInfo[0].cmdlineParams == ["-t", opts.inputFilestem + ".toml"] + Hdf5Params(opts)
  {
  }

  /** The command line ends with `-h5 <hdf5 file>` exactly when HDF5 output
      is requested, and otherwise holds only the input arguments. */
  lemma Hdf5Arguments(opts: Options)
    requires SupportedFormat(opts.inputFormat)
    ensures var ps := PrepareForSubmission(opts).value.codesInfo[0].cmdlineParams;
      && (opts.withHdf5 ==> |ps| >= 2 && ps[|ps| - 2..] == ["-h5", opts.hdf5Filename])
      && (!opts.withHdf5 ==> ps == PlanInput(opts.inputFilestem, opts.inputFormat).value.cmdlineParams)
  {
  }

  /** The input format read back from a submission plan: a stdin redirect
      means `stdin`, otherwise the first argument's flag names it. */
  function FormatOf(info: CalcInfo): string
  {
    if |info.codesInfo| == 0 then ""
    else if info.codesInfo[0].stdinName.Some? then "stdin"
    else if |info.codesInfo[0].cmdlineParams| > 0 && info.codesInfo[0].cmdlineParams[0] == "-i" then "dat"
    else if |info.codesInfo[0].cmdlineParams| > 0 && info.codesInfo[0].cmdlineParams[0] == "-t" then "toml"
    else ""
  }

  /** The plan is unambiguous: the format can be read back from it, and the
      program is handed the written input file, through stdin for `stdin` and
      as the argument after the format's flag otherwise. */
  lemma FormatRoundTrip(opts: Options)
    requires SupportedFormat(opts.inputFormat)
    ensures var info := PrepareForSubmission(opts).value;
      && FormatOf(info) == opts.inputFormat
      && var code := info.codesInfo[0];
      && (code.stdinName.Some? <==> opts.inputFormat == "stdin")
      && (code.stdinName.Some? ==> code.stdinName.value == info.inputFile.name)
      && (code.stdinName.None? ==> |code.cmdlineParams| >= 2 && code.cmdlineParams[1] == info.inputFile.name)
  {
  }
}
