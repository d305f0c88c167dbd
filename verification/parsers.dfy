/** The parser: the precedence chain that turns a retrieved run into an exit
    label or a set of outputs, the reshaping of each family of ragged records
    into padded tables, and the ghost-state counts. */
module Parsers {
  import opened Wrappers
  import opened Tables
  import opened Calculations

  // ---------------------------------------------------------------------
  // What the text parser of the generator's report yields
  // ---------------------------------------------------------------------

  /** An error or warning found in the report. */
  datatype Message = Message(name: string, lineNumbers: seq<nat>, description: string)

  /** An unscreened semilocal potential of angular momentum `l`. */
  datatype SemilocalPotential = SemilocalPotential(l: int, r: seq<real>, vSl: seq<real>)

  /** The record families below keep, in `meta`, every scalar entry of the
      record besides its series. */
  datatype Wavefunction = Wavefunction(meta: map<string, real>, r: seq<real>, wfnAe: seq<real>, wfnPs: seq<real>)

  datatype VkbProjector = VkbProjector(meta: map<string, real>, r: seq<real>, proj: seq<real>)

  datatype ConvergenceProfile = ConvergenceProfile(meta: map<string, real>, eresid: seq<real>, ecut: seq<real>)

  datatype LogDerivative = LogDerivative(meta: map<string, real>, e: seq<real>, logDerivAe: seq<real>, logDerivPs: seq<real>)

  /** A ghost state; only its sign is inspected. */
  datatype Ghost = Ghost(sign: string)

  /** The parts of the parsed report this model reads. */
  datatype Report = Report(
    errors: seq<Message>,
    warnings: seq<Message>,
    completed: bool,
    semilocalPotentials: seq<SemilocalPotential>,
    wavefunctions: seq<Wavefunction>,
    vkbProjectors: seq<VkbProjector>,
    convergenceProfiles: seq<ConvergenceProfile>,
    logDerivatives: seq<LogDerivative>,
    ghosts: seq<Ghost>)

  /** Opening and parsing the output file: a report, a missing file, or any
      other operating-system error. */
  datatype OpenOutcome = Opened(report: Report) | FileNotFound | OtherOsError

  /** The retrieved folder of the run, when the engine has one. */
  datatype Retrieved = NoFolder | Folder(output: OpenOutcome)

  // ---------------------------------------------------------------------
  // What the parser yields
  // ---------------------------------------------------------------------

  /** The ghost entries of the output parameters. */
  datatype GhostSummary = GhostSummary(ghosts: seq<Ghost>, numGhosts: nat, numPositive: nat, numNegative: nat)

  /** The array outputs (absent for an empty family) and the ghost summary. */
  datatype Outputs = Outputs(
    semilocalPotentials: Option<Table>,
    wavefunctions: Option<Table>,
    vkbProjectors: Option<Table>,
    convergenceProfiles: Option<Table>,
    logDerivatives: Option<Table>,
    ghosts: GhostSummary)

  /** Why the parser raises: a family does not stack, or a reported message
      has no line number to quote (the `IndexError` of `line_numbers[0]`). */
  datatype ParseError = Unstackable(cause: StackError) | UnlocatedMessage

  /** The parser returns an exit label, or emits its outputs, or raises. */
  datatype ParseResult = Exit(exitLabel: string) | Parsed(outputs: Outputs) | Raised(error: ParseError)

  /** A message can be reported: it quotes its first line number. */
  predicate Located(m: Message)
  {
    |m.lineNumbers| > 0
  }

  predicate AllLocated(ms: seq<Message>)
  {
    forall i :: 0 <= i < |ms| ==> Located(ms[i])
  }

  // ---------------------------------------------------------------------
  // Ghost counts
  // ---------------------------------------------------------------------

  /** The number of ghosts whose sign is exactly `sign`. */
  function CountSign(ghosts: seq<Ghost>, sign: string): (n: nat)
    ensures n <= |ghosts|
  {
    if |ghosts| == 0 then 0
    else (if ghosts[0].sign == sign then 1 else 0) + CountSign(ghosts[1..], sign)
  }

  function SummarizeGhosts(ghosts: seq<Ghost>): (s: GhostSummary)
    ensures s.ghosts == ghosts && s.numGhosts == |ghosts|
  {
    GhostSummary(ghosts, |ghosts|, CountSign(ghosts, "+"), CountSign(ghosts, "-"))
  }

  predicate SignedGhost(g: Ghost)
  {
    g.sign == "+" || g.sign == "-"
  }

  /** Positive and negative ghosts never outnumber the ghosts, and they add
      up to all of them exactly when every ghost is signed `+` or `-`. */
  lemma {:induction false} GhostCountsBounded(ghosts: seq<Ghost>)
    ensures CountSign(ghosts, "+") + CountSign(ghosts, "-") <= |ghosts|
    ensures CountSign(ghosts, "+") + CountSign(ghosts, "-") == |ghosts|
      <==> forall i :: 0 <= i < |ghosts| ==> SignedGhost(ghosts[i])
  {
    if |ghosts| > 0 {
      GhostCountsBounded(ghosts[1..]);
      assert forall i :: 1 <= i < |ghosts| ==> ghosts[i] == ghosts[1..][i - 1];
      if !SignedGhost(ghosts[0]) {
        assert CountSign(ghosts, "+") + CountSign(ghosts, "-") < |ghosts|;
      }
    }
  }

  // ---------------------------------------------------------------------
  // Families of ragged records
  // ---------------------------------------------------------------------

  function SemilocalCurve(p: SemilocalPotential): Curve
  {
    Curve(map["l" := p.l as real], p.r, [p.vSl])
  }

  function WavefunctionCurve(w: Wavefunction): Curve
  {
    Curve(w.meta, w.r, [w.wfnAe, w.wfnPs])
  }

  function ProjectorCurve(p: VkbProjector): Curve
  {
    Curve(p.meta, p.r, [p.proj])
  }

  function ConvergenceCurve(c: ConvergenceProfile): Curve
  {
    Curve(c.meta, c.eresid, [c.ecut])
  }

  function LogDerivativeCurve(d: LogDerivative): Curve
  {
    Curve(d.meta, d.e, [d.logDerivAe, d.logDerivPs])
  }

  /** The curves of a family's records, in record order. */
  function Curves<R>(rs: seq<R>, curve: R -> Curve): (cs: seq<Curve>)
    ensures |cs| == |rs|
    ensures forall i :: 0 <= i < |rs| ==> cs[i] == curve(rs[i])
  {
    seq(|rs|, i requires 0 <= i < |rs| => curve(rs[i]))
  }

  /** Stacks a family with `arity` companion series: nothing for an empty
      family, the stacked table otherwise. */
  function StackFamily(curves: seq<Curve>, keys: set<string>, arity: nat): (r: Result<Option<Table>, StackError>)
    requires forall i :: 0 <= i < |curves| ==> |curves[i].ys| == arity
    ensures r.Success? && r.value.None? <==> |curves| == 0
    ensures |curves| > 0 ==> match Stack(curves, keys, arity)
      case Success(t) => r == Success(Some(t))
      case Failure(e) => r == Failure(e)
  {
    if |curves| == 0 then Success(None)
    else match Stack(curves, keys, arity)
      case Success(t) => Success(Some(t))
      case Failure(e) => Failure(e)
  }

  /** A stacked family keeps every record: one attribute column per key,
      holding the records' attributes in order, and one row per record from
      which its width-fixing series reads back. */
  lemma StackFamilyKeepsRecords(curves: seq<Curve>, keys: set<string>, arity: nat)
    requires forall i :: 0 <= i < |curves| ==> |curves[i].ys| == arity
    ensures var r := StackFamily(curves, keys, arity);
      r.Success? && r.value.Some? ==>
        var t := r.value.value;
        && t.columns.Keys == keys
        && HasKeys(curves, keys)
        && (forall k :: k in keys ==> |t.columns[k]| == |curves|)
        && |t.x| == |curves|
        && (forall k, i :: k in keys && 0 <= i < |curves| ==> t.columns[k][i] == curves[i].meta[k])
        && forall i :: 0 <= i < |curves| ==> Unpad(t.x[i]) == curves[i].x
  {
    if |curves| > 0 && Stack(curves, keys, arity).Success? {
      forall i | 0 <= i < |curves|
        ensures Unpad(Stack(curves, keys, arity).value.x[i]) == curves[i].x
      {
        StackKeepsRecords(curves, keys, arity, i);
      }
    }
  }

  /** The semilocal potentials, keyed by their `l` only. Every record has
      its `l`, so the family raises exactly when it is non-empty and some
      potential cannot be assigned into its row (numpy's `ValueError`). A
      stacked family has an `l` column with every record's angular momentum
      and one row per record holding its radii. */
  function StackSemilocal(ps: seq<SemilocalPotential>): (r: Result<Option<Table>, StackError>)
    ensures r.Success? && r.value.None? <==> |ps| == 0
    ensures var curves := Curves(ps, SemilocalCurve);
      r.Failure? <==> |ps| > 0 && !Fits(curves, Width(curves))
    ensures r.Failure? ==> r.error == SeriesTooLong
    ensures r.Success? && r.value.Some? ==>
      var t := r.value.value;
      && t.columns.Keys == {"l"}
      && |t.x| == |ps| && |t.columns["l"]| == |ps|
      && forall i :: 0 <= i < |ps| ==> t.columns["l"][i] == ps[i].l as real && Unpad(t.x[i]) == ps[i].r
  {
    var curves := Curves(ps, SemilocalCurve);
    assert HasKeys(curves, {"l"});
    StackFamilyKeepsRecords(curves, {"l"}, 1);
    StackFamily(curves, {"l"}, 1)
  }

  /** The other families take their attribute keys from their first record.
      A non-empty family raises exactly when some record lacks one of those
      keys (a `KeyError`, checked first) or some companion series cannot be
      assigned into its row (numpy's `ValueError`). A stacked family has one
      column per attribute of the first record, filled from every record,
      and one row per record holding its width-fixing series. */
  function StackKeyed(curves: seq<Curve>, arity: nat): (r: Result<Option<Table>, StackError>)
    requires forall i :: 0 <= i < |curves| ==> |curves[i].ys| == arity
    ensures r.Success? && r.value.None? <==> |curves| == 0
    ensures |curves| > 0 ==>
      (r.Failure? <==> !(HasKeys(curves, curves[0].meta.Keys) && Fits(curves, Width(curves))))
    ensures |curves| > 0 && !HasKeys(curves, curves[0].meta.Keys) ==> r == Failure(MissingKey)
    ensures |curves| > 0 && HasKeys(curves, curves[0].meta.Keys) && !Fits(curves, Width(curves)) ==>
      r == Failure(SeriesTooLong)
    ensures r.Success? && r.value.Some? ==>
      var t := r.value.value;
      && t.columns.Keys == curves[0].meta.Keys
      && (forall k, i :: k in curves[0].meta && 0 <= i < |curves| ==> k in curves[i].meta)
      && (forall k :: k in curves[0].meta ==> |t.columns[k]| == |curves|)
      && |t.x| == |curves|
      && (forall k, i :: k in curves[0].meta && 0 <= i < |curves| ==> t.columns[k][i] == curves[i].meta[k])
      && forall i :: 0 <= i < |curves| ==> Unpad(t.x[i]) == curves[i].x
  {
    if |curves| == 0 then StackFamily(curves, {}, arity)
    else
      var keys := curves[0].meta.Keys;
      StackFamilyKeepsRecords(curves, keys, arity);
      StackFamily(curves, keys, arity)
  }

  /** The wavefunctions, projectors, convergence profiles and
      log-derivatives each stack through `StackKeyed`; their contracts restate
      its promise in terms of the family's own records. */
  function StackWavefunctions(ws: seq<Wavefunction>): (r: Result<Option<Table>, StackError>)
    ensures r.Success? && r.value.None? <==> |ws| == 0
    ensures var curves := Curves(ws, WavefunctionCurve);
      |ws| > 0 ==> (r.Failure? <==> !(HasKeys(curves, ws[0].meta.Keys) && Fits(curves, Width(curves))))
    ensures var curves := Curves(ws, WavefunctionCurve);
      r.Failure? ==> r.error == (if HasKeys(curves, ws[0].meta.Keys) then SeriesTooLong else MissingKey)
    ensures r.Success? && r.value.Some? ==>
      var t := r.value.value;
      && t.columns.Keys == ws[0].meta.Keys
      && (forall k, i :: k in ws[0].meta && 0 <= i < |ws| ==> k in ws[i].meta)
      && (forall k :: k in ws[0].meta ==> |t.columns[k]| == |ws|)
      && |t.x| == |ws|
      && (forall k, i :: k in ws[0].meta && 0 <= i < |ws| ==> t.columns[k][i] == ws[i].meta[k])
      && forall i :: 0 <= i < |ws| ==> Unpad(t.x[i]) == ws[i].r
  {
    var curves := Curves(ws, WavefunctionCurve);
    assert forall i :: 0 <= i < |ws| ==> curves[i].meta == ws[i].meta && curves[i].x == ws[i].r;
    StackKeyed(curves, 2)
  }

  function StackProjectors(ps: seq<VkbProjector>): (r: Result<Option<Table>, StackError>)
    ensures r.Success? && r.value.None? <==> |ps| == 0
    ensures var curves := Curves(ps, ProjectorCurve);
      |ps| > 0 ==> (r.Failure? <==> !(HasKeys(curves, ps[0].meta.Keys) && Fits(curves, Width(curves))))
    ensures var curves := Curves(ps, ProjectorCurve);
      r.Failure? ==> r.error == (if HasKeys(curves, ps[0].meta.Keys) then SeriesTooLong else MissingKey)
    ensures r.Success? && r.value.Some? ==>
      var t := r.value.value;
      && t.columns.Keys == ps[0].meta.Keys
      && (forall k, i :: k in ps[0].meta && 0 <= i < |ps| ==> k in ps[i].meta)
      && (forall k :: k in ps[0].meta ==> |t.columns[k]| == |ps|)
      && |t.x| == |ps|
      && (forall k, i :: k in ps[0].meta && 0 <= i < |ps| ==> t.columns[k][i] == ps[i].meta[k])
      && forall i :: 0 <= i < |ps| ==> Unpad(t.x[i]) == ps[i].r
  {
    var curves := Curves(ps, ProjectorCurve);
    assert forall i :: 0 <= i < |ps| ==> curves[i].meta == ps[i].meta && curves[i].x == ps[i].r;
    StackKeyed(curves, 1)
  }

  function StackConvergence(cs: seq<ConvergenceProfile>): (r: Result<Option<Table>, StackError>)
    ensures r.Success? && r.value.None? <==> |cs| == 0
    ensures var curves := Curves(cs, ConvergenceCurve);
      |cs| > 0 ==> (r.Failure? <==> !(HasKeys(curves, cs[0].meta.Keys) && Fits(curves, Width(curves))))
    ensures var curves := Curves(cs, ConvergenceCurve);
      r.Failure? ==> r.error == (if HasKeys(curves, cs[0].meta.Keys) then SeriesTooLong else MissingKey)
    ensures r.Success? && r.value.Some? ==>
      var t := r.value.value;
      && t.columns.Keys == cs[0].meta.Keys
      && (forall k, i :: k in cs[0].meta && 0 <= i < |cs| ==> k in cs[i].meta)
      && (forall k :: k in cs[0].meta ==> |t.columns[k]| == |cs|)
      && |t.x| == |cs|
      && (forall k, i :: k in cs[0].meta && 0 <= i < |cs| ==> t.columns[k][i] == cs[i].meta[k])
      && forall i :: 0 <= i < |cs| ==> Unpad(t.x[i]) == cs[i].eresid
  {
    var curves := Curves(cs, ConvergenceCurve);
    assert forall i :: 0 <= i < |cs| ==> curves[i].meta == cs[i].meta && curves[i].x == cs[i].eresid;
    StackKeyed(curves, 1)
  }

  function StackLogDerivatives(ds: seq<LogDerivative>): (r: Result<Option<Table>, StackError>)
    ensures r.Success? && r.value.None? <==> |ds| == 0
    ensures var curves := Curves(ds, LogDerivativeCurve);
      |ds| > 0 ==> (r.Failure? <==> !(HasKeys(curves, ds[0].meta.Keys) && Fits(curves, Width(curves))))
    ensures var curves := Curves(ds, LogDerivativeCurve);
      r.Failure? ==> r.error == (if HasKeys(curves, ds[0].meta.Keys) then SeriesTooLong else MissingKey)
    ensures r.Success? && r.value.Some? ==>
      var t := r.value.value;
      && t.columns.Keys == ds[0].meta.Keys
      && (forall k, i :: k in ds[0].meta && 0 <= i < |ds| ==> k in ds[i].meta)
      && (forall k :: k in ds[0].meta ==> |t.columns[k]| == |ds|)
      && |t.x| == |ds|
      && (forall k, i :: k in ds[0].meta && 0 <= i < |ds| ==> t.columns[k][i] == ds[i].meta[k])
      && forall i :: 0 <= i < |ds| ==> Unpad(t.x[i]) == ds[i].e
  {
    var curves := Curves(ds, LogDerivativeCurve);
    assert forall i :: 0 <= i < |ds| ==> curves[i].meta == ds[i].meta && curves[i].x == ds[i].e;
    StackKeyed(curves, 2)
  }

  /** The semilocal potentials always stack: every record has its `l`, and
      the potential of a record never outruns the radii of the longest one
      as long as it is no longer than its own radii. */
  lemma SemilocalStacks(ps: seq<SemilocalPotential>)
    requires forall i :: 0 <= i < |ps| ==> |ps[i].vSl| <= |ps[i].r|
    ensures StackSemilocal(ps).Success?
    ensures StackSemilocal(ps).value.Some? <==> |ps| > 0
  {
    var curves := seq(|ps|, i requires 0 <= i < |ps| => SemilocalCurve(ps[i]));
    if |ps| > 0 {
      WidthIsLongest(curves);
      assert HasKeys(curves, {"l"});
      assert Fits(curves, Width(curves));
    }
  }

  // ---------------------------------------------------------------------
  // The parse
  // ---------------------------------------------------------------------

  /** The stacking of each family, in the order the parser emits them. */
  function FamilyStacks(report: Report): (rs: seq<Result<Option<Table>, StackError>>)
    ensures |rs| == 5
  {
    [StackSemilocal(report.semilocalPotentials),
     StackWavefunctions(report.wavefunctions),
     StackProjectors(report.vkbProjectors),
     StackConvergence(report.convergenceProfiles),
     StackLogDerivatives(report.logDerivatives)]
  }

  /** Emits the stacked families `rs`, in order, beside the ghost summary.
      Outputs are emitted exactly when every family stacks, and then they are
      the stacked families and the summary; otherwise the error raised is
      that of the first family that does not stack. */
  function EmitFamilies(rs: seq<Result<Option<Table>, StackError>>, ghosts: GhostSummary): (r: ParseResult)
    requires |rs| == 5
    ensures !r.Exit?
    ensures r.Parsed? <==> forall k :: 0 <= k < 5 ==> rs[k].Success?
    ensures r.Parsed? ==>
      r.outputs == Outputs(rs[0].value, rs[1].value, rs[2].value, rs[3].value, rs[4].value, ghosts)
    ensures r.Raised? ==>
      exists k :: 0 <= k < 5 && rs[k].Failure? && r.error == Unstackable(rs[k].error)
        && forall m :: 0 <= m < k ==> rs[m].Success?
  {
    match rs[0]
    case Failure(e) => Raised(Unstackable(e))
    case Success(sl) =>
    match rs[1]
    case Failure(e) => Raised(Unstackable(e))
    case Success(wf) =>
    match rs[2]
    case Failure(e) => Raised(Unstackable(e))
    case Success(pj) =>
    match rs[3]
    case Failure(e) => Raised(Unstackable(e))
    case Success(cp) =>
    match rs[4]
    case Failure(e) => Raised(Unstackable(e))
    case Success(ld) => Parsed(Outputs(sl, wf, pj, cp, ld, ghosts))
  }

  /** The outputs of a clean, completed report: the families are stacked in
      the order the parser emits them, and the first one that raises stops
      the parse with its error. */
  function Emit(report: Report): (r: ParseResult)
    ensures !r.Exit?
    ensures r.Parsed? <==> forall k :: 0 <= k < 5 ==> FamilyStacks(report)[k].Success?
    ensures r.Parsed? ==>
      var rs := FamilyStacks(report);
      r.outputs == Outputs(rs[0].value, rs[1].value, rs[2].value, rs[3].value, rs[4].value,
                           SummarizeGhosts(report.ghosts))
    ensures r.Raised? ==>
      var rs := FamilyStacks(report);
      exists k :: 0 <= k < 5 && rs[k].Failure? && r.error == Unstackable(rs[k].error)
        && forall m :: 0 <= m < k ==> rs[m].Success?
  {
    EmitFamilies(FamilyStacks(report), SummarizeGhosts(report.ghosts))
  }

  /** The report has been opened and parsed. */
  predicate Opens(retrieved: Retrieved)
  {
    retrieved.Folder? && retrieved.output.Opened?
  }

  /** The parse as written. The test for exactly one error comes after the
      test for any error, so it can never be taken and is not part of the
      chain. Errors are reported before the multiple-errors label is
      returned, and warnings before the completion test; reporting a message
      without a line number raises. Outputs are only ever emitted for an
      opened report with no errors, reportable warnings, and a completed
      run. */
  function Parse(retrieved: Retrieved): (r: ParseResult)
    ensures r.Parsed? ==>
      Opens(retrieved) &&
      var report := retrieved.output.report;
      |report.errors| == 0 && AllLocated(report.warnings) && report.completed
    ensures r.Raised? ==> Opens(retrieved)
  {
    match retrieved
    case NoFolder => Exit(NO_RETRIEVED_FOLDER)
    case Folder(FileNotFound) => Exit(OUTPUT_FILE_MISSING)
    case Folder(OtherOsError) => Exit(OUTPUT_FILE_UNREADABLE)
    case Folder(Opened(report)) =>
      if |report.errors| > 0 then
        if !AllLocated(report.errors) then Raised(UnlocatedMessage) else Exit(MULTIPLE_ERRORS)
      else if !AllLocated(report.warnings) then Raised(UnlocatedMessage)
      else if !report.completed then Exit(RUN_NOT_COMPLETED)
      else Emit(report)
  }

  /** Each exit label is returned exactly when its own check is the first in
      the chain to fail: no folder; then a missing output file; then any
      other error opening it; then any reported error, once every error has
      been reported; then an incomplete run, once every warning has been
      reported. A message without a line number raises while it is
      reported. Outputs are emitted only past all of these checks. */
  lemma ParsePrecedence(retrieved: Retrieved)
    ensures Parse(retrieved) == Exit(NO_RETRIEVED_FOLDER) <==> retrieved.NoFolder?
    ensures Parse(retrieved) == Exit(OUTPUT_FILE_MISSING) <==> retrieved == Folder(FileNotFound)
    ensures Parse(retrieved) == Exit(OUTPUT_FILE_UNREADABLE) <==> retrieved == Folder(OtherOsError)
    ensures Parse(retrieved) == Exit(MULTIPLE_ERRORS) <==>
      Opens(retrieved) && |retrieved.output.report.errors| > 0 && AllLocated(retrieved.output.report.errors)
    ensures Parse(retrieved) == Raised(UnlocatedMessage) <==>
      Opens(retrieved) &&
      var report := retrieved.output.report;
      if |report.errors| > 0 then !AllLocated(report.errors) else !AllLocated(report.warnings)
    ensures Parse(retrieved) == Exit(RUN_NOT_COMPLETED) <==>
      Opens(retrieved) &&
      var report := retrieved.output.report;
      |report.errors| == 0 && AllLocated(report.warnings) && !report.completed
    ensures (Parse(retrieved).Parsed? || (Parse(retrieved).Raised? && Parse(retrieved).error.Unstackable?)) <==>
      Opens(retrieved) &&
      var report := retrieved.output.report;
      |report.errors| == 0 && AllLocated(report.warnings) && report.completed
    ensures Opens(retrieved) ==>
      var report := retrieved.output.report;
      |report.errors| == 0 && AllLocated(report.warnings) && report.completed ==>
      Parse(retrieved) == Emit(report)
  {
  }

  /** The exit labels the parse returns are the four fixed failures of
      opening and running, and the multiple-errors label; in particular it
      never returns the unknown-error label. */
  lemma ParseExitLabels(retrieved: Retrieved)
    requires Parse(retrieved).Exit?
    ensures Parse(retrieved).exitLabel in
      {NO_RETRIEVED_FOLDER, OUTPUT_FILE_MISSING, OUTPUT_FILE_UNREADABLE, RUN_NOT_COMPLETED, MULTIPLE_ERRORS}
    ensures Parse(retrieved).exitLabel != UNKNOWN_ERROR
  {
  }

  /** A report with exactly one error is reported as multiple errors (or
      raises, when the error has no line number): the error's own exit code is
      never looked up. */
  lemma SingleErrorReportedAsMultiple(report: Report)
    requires |report.errors| == 1
    ensures Parse(Folder(Opened(report))) ==
      if Located(report.errors[0]) then Exit(MULTIPLE_ERRORS) else Raised(UnlocatedMessage)
  {
  }

  /** A concrete run showing it: one error named as a registered exit code
      still yields the multiple-errors label. */
  lemma SingleErrorWitness()
    ensures var report := Report([Message("ERROR_X", [1], "")], [], true, [], [], [], [], [], []);
      && Lookup(Define([ExternalError("error_x", "")]), "ERROR_X").Some?
      && Parse(Folder(Opened(report))) == Exit(MULTIPLE_ERRORS)
  {
    ExternalCodeResolves([ExternalError("error_x", "")], 0);
    assert Upper("error_x") == "ERROR_X";
  }

  /** The chain with the single-error test taken first: one error resolves
      to the code registered under its name, or to the unknown-error label,
      so the label returned for a single error always has a status. */
  function ParseCorrected(retrieved: Retrieved, codes: seq<ExitCode>): (r: ParseResult)
    ensures Opens(retrieved) && |retrieved.output.report.errors| == 1 ==>
      r.Exit? && (r.exitLabel == UNKNOWN_ERROR || Lookup(codes, r.exitLabel).Some?)
  {
    match retrieved
    case Folder(Opened(report)) =>
      if |report.errors| == 1 then
        if Lookup(codes, report.errors[0].name).Some? then Exit(report.errors[0].name) else Exit(UNKNOWN_ERROR)
      else Parse(retrieved)
    case _ => Parse(retrieved)
  }

  /** The corrected chain gives a single error its own exit code when one is
      registered and the unknown-error code otherwise, reports two or more as
      multiple errors, and agrees with the parse as written everywhere else. */
  lemma ParseCorrectedSingleError(retrieved: Retrieved, codes: seq<ExitCode>)
    ensures Opens(retrieved) && |retrieved.output.report.errors| == 1 ==>
      var name := retrieved.output.report.errors[0].name;
      ParseCorrected(retrieved, codes) ==
        (if exists i :: 0 <= i < |codes| && codes[i].name == name then Exit(name) else Exit(UNKNOWN_ERROR))
    ensures Opens(retrieved) && |retrieved.output.report.errors| > 1 ==>
      ParseCorrected(retrieved, codes) ==
        (if AllLocated(retrieved.output.report.errors) then Exit(MULTIPLE_ERRORS) else Raised(UnlocatedMessage))
    ensures !(Opens(retrieved) && |retrieved.output.report.errors| == 1) ==>
      ParseCorrected(retrieved, codes) == Parse(retrieved)
  {
  }

  /** The label of a failed open or an incomplete run resolves through the
      exit-code table to its fixed status, unless the generator's catalogue
      re-registers a fixed label; the label of reported errors resolves only
      if the catalogue names it. */
  lemma ParseExitStatus(retrieved: Retrieved, errors: seq<ExternalError>)
    requires Parse(retrieved).Exit?
    requires forall i, k :: 0 <= i < |errors| && 0 <= k < |FIXED_CODES| ==> Upper(errors[i].name) != FIXED_CODES[k].name
    ensures !(Opens(retrieved) && |retrieved.output.report.errors| > 0) ==>
      var r := Lookup(Define(errors), Parse(retrieved).exitLabel);
      r.Some? && r.value.status in {301, 302, 303, 501}
    ensures Opens(retrieved) && |retrieved.output.report.errors| > 0 ==>
      (Lookup(Define(errors), Parse(retrieved).exitLabel).Some? <==>
        exists i :: 0 <= i < |errors| && Upper(errors[i].name) == MULTIPLE_ERRORS)
  {
    match retrieved
    case NoFolder =>
      assert Parse(retrieved).exitLabel == FIXED_CODES[0].name;
      FixedCodeResolves(errors, 0);
    case Folder(FileNotFound) =>
      assert Parse(retrieved).exitLabel == FIXED_CODES[1].name;
      FixedCodeResolves(errors, 1);
    case Folder(OtherOsError) =>
      assert Parse(retrieved).exitLabel == FIXED_CODES[2].name;
      FixedCodeResolves(errors, 2);
    case Folder(Opened(report)) =>
      if |report.errors| > 0 {
        assert AllLocated(report.errors);
        assert Parse(retrieved).exitLabel == MULTIPLE_ERRORS;
        MultipleErrorsRegistered(errors);
      } else {
        assert Parse(retrieved).exitLabel == FIXED_CODES[3].name;
        FixedCodeResolves(errors, 3);
      }
  }

  /** A clean, completed report is never turned into an exit label; when it
      is parsed, it yields one table per non-empty family and none for an
      empty one, and the ghost counts of the report. */
  lemma ParsedOutputs(report: Report)
    requires |report.errors| == 0 && report.completed
    ensures !Parse(Folder(Opened(report))).Exit?
    ensures Parse(Folder(Opened(report))).Parsed? ==>
      var out := Parse(Folder(Opened(report))).outputs;
      && (out.semilocalPotentials.Some? <==> |report.semilocalPotentials| > 0)
      && (out.wavefunctions.Some? <==> |report.wavefunctions| > 0)
      && (out.vkbProjectors.Some? <==> |report.vkbProjectors| > 0)
      && (out.convergenceProfiles.Some? <==> |report.convergenceProfiles| > 0)
      && (out.logDerivatives.Some? <==> |report.logDerivatives| > 0)
      && out.ghosts.ghosts == report.ghosts
      && out.ghosts.numGhosts == |report.ghosts|
      && out.ghosts.numPositive + out.ghosts.numNegative <= out.ghosts.numGhosts
  {
    if AllLocated(report.warnings) {
      assert Parse(Folder(Opened(report))) == Emit(report);
    }
    GhostCountsBounded(report.ghosts);
  }
}
