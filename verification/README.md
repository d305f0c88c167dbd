# aiida-oncvpsp core, modelled in Dafny

The plugin connects the ONCVPSP pseudopotential generator to the AiiDA
workflow engine. It holds three small pieces of logic, and this project
models each of them as pure functions over sequences and datatypes:

- **Parsing a finished run** (`Parsers`, `Tables`). An ordered chain of checks
  turns a retrieved run into an exit label: no retrieved folder, a missing
  output file, an unreadable output file, reported errors, or an incomplete
  run. Errors and warnings are reported on the way, and reporting a message
  that has no line number raises. A run that passes every check has its
  outputs emitted.
  Each family of ragged records is stacked into rectangular tables: the
  unscreened semilocal potentials, wavefunctions, Kleinman-Bylander
  projectors, convergence profiles and log-derivatives. A table has one row
  per record and the width of the longest record. The data comes first in
  each row, and padding follows it. The padding cells, NaN in the plugin,
  are `None` here. Ghost states are counted by sign.
- **Submission planning** (`Calculations`). The input format (`stdin`, `dat`
  or `toml`) and the HDF5 option decide five things: the input file name,
  the stdin redirect, the command line, the stdout name and the retrieve
  list. The exit-code table registers five fixed codes, then the
  generator's error catalogue under statuses 503, 504, ….
- **Log-derivative error per angular momentum** (`Calcfunctions`). The
  energy grid is sorted and every data row follows the same permutation.
  Only energies inside the closed window `[e_min, e_max]` are kept. The
  per-row errors are then averaged per `l` in `0 .. max(l)`.

Files: `wrappers.dfy` (`Option`, `Result`), `tables.dfy`,
`calculations.dfy`, `parsers.dfy`, `calcfunctions.dfy`.

External inputs become parameters of the model:

- The retrieved folder and the outcome of opening the output file are a
  `Retrieved` value.
- The text parser of the report is opaque. Its result is a `Report` value.
- The generator's error catalogue is a sequence of `ExternalError`.
- The per-row root-mean-square error is a function parameter `rowError`.
- The rendered input text is named only by which renderer produces it:
  `DatText` or `TomlText`.

## Model

| member | source | states |
|---|---|---|
| Tables.MaxLength | src/aiida_oncvpsp/parsers.py:102 | the width is at least every record's length, equals some record's length, and is 0 for no records |
| Tables.Pad | src/aiida_oncvpsp/parsers.py:99-109 | a padded row has exactly the table width |
| Tables.Unpad | src/aiida_oncvpsp/parsers.py:107-109 | reading a row back never yields more values than the row has cells |
| Tables.UnpadPad | src/aiida_oncvpsp/parsers.py:107-109 | padding loses nothing: a record's series is read back from its padded row |
| Tables.Columns | src/aiida_oncvpsp/parsers.py:115-119 | there is one column per attribute key, and entry i of a column is record i's value for that key |
| Tables.Stack | src/aiida_oncvpsp/parsers.py:113-136 | stacking succeeds iff every record has the first record's keys and every companion series either fits the width or is a single value numpy broadcasts; a missing key is a KeyError, and otherwise a companion series that numpy cannot assign is a ValueError; on success: one row per record, the width of the longest width-fixing series, companion tables of the same shape, and in row i the record's data in order followed by padding |
| Tables.WidthIsLongest | src/aiida_oncvpsp/parsers.py:99-105 | no record is longer than the width, and some record fills its row |
| Tables.StackKeepsRecords | src/aiida_oncvpsp/parsers.py:107-111 | every record's width-fixing series is recovered intact from its row, and so is every companion series that fits the width; the only other companion is a single value broadcast into a row with no cells |
| Tables.SingleValueBroadcast | src/aiida_oncvpsp/parsers.py:107-109 | a record with no radii and a one-value companion stacks, into rows with no cells, instead of raising |
| Parsers.CountSign | src/aiida_oncvpsp/parsers.py:225-226 | a sign count never exceeds the number of ghosts |
| Parsers.SummarizeGhosts | src/aiida_oncvpsp/parsers.py:223-224 | the output keeps the ghost list, and num_ghosts is its length |
| Parsers.GhostCountsBounded | src/aiida_oncvpsp/parsers.py:224-226 | positive + negative ≤ num_ghosts, with equality iff every ghost's sign is '+' or '-' |
| Parsers.StackFamily | src/aiida_oncvpsp/parsers.py:137-157 | an empty family emits nothing; a non-empty family emits its stacked table or raises the stacking error |
| Parsers.SemilocalStacks | src/aiida_oncvpsp/parsers.py:90-112 | semilocal potentials whose v_sl is no longer than their r always stack, and they emit a table iff there is at least one potential |
| Parsers.StackFamilyKeepsRecords | src/aiida_oncvpsp/parsers.py:90-202 | a stacked family has one column per key, filled from every record in order, and one row per record from which the record's width-fixing series reads back |
| Parsers.StackSemilocal | src/aiida_oncvpsp/parsers.py:90-112 | the family emits nothing iff it is empty, and raises iff it is non-empty and some v_sl cannot be assigned into its row (a ValueError); the table has an `l` column with each potential's l and one row per potential holding its r |
| Parsers.StackKeyed | src/aiida_oncvpsp/parsers.py:113-202 | a family keyed by its first record emits nothing iff it is empty; a non-empty family raises iff a record lacks a key of the first record (a KeyError, checked first) or a companion series cannot be assigned (a ValueError); its columns are the first record's keys, every record carries them, column entries come from every record in order, and row i holds record i's width-fixing series |
| Parsers.StackWavefunctions | src/aiida_oncvpsp/parsers.py:113-136 | the family emits nothing iff it is empty; a non-empty family raises iff a record lacks a key of the first record (KeyError) or a companion series cannot be assigned (ValueError); its columns are the first record's keys, filled from every record, and row i holds record i's r |
| Parsers.StackProjectors | src/aiida_oncvpsp/parsers.py:137-157 | the family emits nothing iff it is empty; a non-empty family raises iff a record lacks a key of the first record (KeyError) or a companion series cannot be assigned (ValueError); its columns are the first record's keys, filled from every record, and row i holds record i's r |
| Parsers.StackConvergence | src/aiida_oncvpsp/parsers.py:158-178 | the family emits nothing iff it is empty; a non-empty family raises iff a record lacks a key of the first record (KeyError) or a companion series cannot be assigned (ValueError); its columns are the first record's keys, filled from every record, and row i holds record i's eresid |
| Parsers.StackLogDerivatives | src/aiida_oncvpsp/parsers.py:179-202 | the family emits nothing iff it is empty; a non-empty family raises iff a record lacks a key of the first record (KeyError) or a companion series cannot be assigned (ValueError); its columns are the first record's keys, filled from every record, and row i holds record i's e |
| Parsers.EmitFamilies | src/aiida_oncvpsp/parsers.py:90-229 | outputs are emitted iff every family stacks, and are then the stacked families and the ghost summary; otherwise the error raised is that of the first family, in emission order, that fails |
| Parsers.Emit | src/aiida_oncvpsp/parsers.py:90-229 | never an exit label; outputs iff all five families stack, each output being that family's stacked table; otherwise the first failing family's stacking error |
| Parsers.Parse | src/aiida_oncvpsp/parsers.py:23-41 | outputs are emitted only for an opened report with no errors, line-numbered warnings and a completed run; the parse raises only once the report is opened |
| Parsers.ParsePrecedence | src/aiida_oncvpsp/parsers.py:23-41 | each exit label is returned iff its check is the first to fail: no folder, then file missing, then other OS error, then any reported error (all of them carrying a line number), then an incomplete run; a message without a line number raises while errors, or else warnings, are reported; outputs are attempted iff all checks pass |
| Parsers.ParseExitLabels | src/aiida_oncvpsp/parsers.py:23-41 | the parse returns only the four fixed failure labels and ERROR_MULTIPLE_ERRORS, never ERROR_UNKNOWN_ERROR |
| Parsers.SingleErrorReportedAsMultiple | src/aiida_oncvpsp/parsers.py:34-38 | a report with exactly one error yields ERROR_MULTIPLE_ERRORS, or raises when that error has no line number; its own code is never looked up |
| Parsers.SingleErrorWitness | src/aiida_oncvpsp/parsers.py:34-38 | a concrete report whose one error names a registered code still yields ERROR_MULTIPLE_ERRORS |
| Parsers.ParseCorrected | src/aiida_oncvpsp/parsers.py:34-38 | with the single-error test first, a single error always yields an exit label that is ERROR_UNKNOWN_ERROR or is registered |
| Parsers.ParseCorrectedSingleError | src/aiida_oncvpsp/parsers.py:34-38 | with the single-error test first, one error yields its own label if registered and ERROR_UNKNOWN_ERROR otherwise; two or more yield ERROR_MULTIPLE_ERRORS, or raise if one lacks a line number; every other run is parsed as before |
| Parsers.ParseExitStatus | src/aiida_oncvpsp/parsers.py:23-41 | when no catalogue name clashes with a fixed label, every label the parse returns resolves to status 301, 302, 303 or 501; ERROR_MULTIPLE_ERRORS resolves iff the catalogue names it |
| Parsers.ParsedOutputs | src/aiida_oncvpsp/parsers.py:90-226 | a clean, completed run never yields an exit label; when its outputs are emitted, a family has a table iff it is non-empty, the ghost list is kept, num_ghosts is its length, and the signed counts are bounded by it |
| Calculations.UpperChar | src/aiida_oncvpsp/calculations.py:58 | lower-case ASCII letters map to their upper-case letters, and every other character is unchanged |
| Calculations.Upper | src/aiida_oncvpsp/calculations.py:58 | upper-casing keeps the length and maps each character independently |
| Calculations.Define | src/aiida_oncvpsp/calculations.py:40-58 | the table holds the five fixed codes 301/302/303/501/502 followed by catalogue entry i as status 503+i under its upper-cased name |
| Calculations.StatusesDistinct | src/aiida_oncvpsp/calculations.py:40-58 | all registered statuses are pairwise distinct, and every catalogue status is above 502 |
| Calculations.ExternalStatusDeterminesEntry | src/aiida_oncvpsp/calculations.py:57-58 | status 503+i is registered, and only under catalogue entry i's name |
| Calculations.Lookup | src/aiida_oncvpsp/parsers.py:38 | a label resolves iff some code carries it, and then to the last code registered under it |
| Calculations.LookupLast | src/aiida_oncvpsp/calculations.py:40-58 | a code not re-registered later is what its label resolves to |
| Calculations.FixedCodeResolves | src/aiida_oncvpsp/calculations.py:40-56 | a fixed label resolves to its fixed code unless a catalogue name re-registers it |
| Calculations.ExternalCodeResolves | src/aiida_oncvpsp/calculations.py:57-58 | a catalogue label resolves to status 503+i of its last entry |
| Calculations.MultipleErrorsRegistered | src/aiida_oncvpsp/calculations.py:57-58 | ERROR_MULTIPLE_ERRORS is registered iff some catalogue name upper-cases to it |
| Calculations.PlanInput | src/aiida_oncvpsp/calculations.py:62-78 | the input plan exists iff the format is stdin, dat or toml |
| Calculations.PrepareForSubmission | src/aiida_oncvpsp/calculations.py:60-99 | it succeeds iff the format is supported, and otherwise fails with the unsupported-format message; one code entry; stdout is the output file; the retrieve list starts with the output file and has a second entry, the HDF5 file, iff HDF5 is on |
| Calculations.PrepareStdin | src/aiida_oncvpsp/calculations.py:62-66 | stdin: the file is stem.in, rendered as dat, redirected to stdin, and no input argument is passed |
| Calculations.PrepareDat | src/aiida_oncvpsp/calculations.py:67-71 | dat: the file is stem.dat, rendered as dat, there is no redirect, and the input arguments are -i and the file |
| Calculations.PrepareToml | src/aiida_oncvpsp/calculations.py:72-76 | toml: the file is stem.toml, rendered as TOML, there is no redirect, and the input arguments are -t and the file |
| Calculations.Hdf5Params | src/aiida_oncvpsp/calculations.py:83-86 | HDF5 arguments are present iff HDF5 is on, and are then -h5 followed by the HDF5 file name |
| Calculations.Hdf5Retrieve | src/aiida_oncvpsp/calculations.py:84-87 | the HDF5 retrieve entry is at most the HDF5 file name, present iff HDF5 is on |
| Calculations.Hdf5Arguments | src/aiida_oncvpsp/calculations.py:83-90 | the command line ends with -h5 and the HDF5 file when HDF5 is on, and holds only the input arguments otherwise |
| Calculations.FormatRoundTrip | src/aiida_oncvpsp/calculations.py:62-93 | the format can be read back from the plan; the program gets the input file through stdin iff the format is stdin, and otherwise as the argument after the flag |
| Calcfunctions.Gather | src/aiida_oncvpsp/calcfunctions.py:22-24 | indexing by positions yields one value per position |
| Calcfunctions.Range | src/aiida_oncvpsp/calcfunctions.py:37 | the output l is 0, 1, …, n-1 |
| Calcfunctions.Insert | src/aiida_oncvpsp/calcfunctions.py:21 | inserting a position into a sorted position list adds exactly that position and keeps the list sorted |
| Calcfunctions.InsertAll | src/aiida_oncvpsp/calcfunctions.py:21 | the first n positions, inserted one by one, are a sorted permutation of 0..n-1 |
| Calcfunctions.ArgSort | src/aiida_oncvpsp/calcfunctions.py:21-22 | the argsort is a permutation of the grid positions, and the grid read through it is ascending, with NaN last |
| Calcfunctions.PermutationCovers | src/aiida_oncvpsp/calcfunctions.py:21 | a permutation has length n, stays in range and misses no position |
| Calcfunctions.PermutationDistinct | src/aiida_oncvpsp/calcfunctions.py:21 | a permutation never repeats a position |
| Calcfunctions.Kept | src/aiida_oncvpsp/calcfunctions.py:26 | the mask's positions increase, and position j is kept iff its energy is a number with e_min ≤ e ≤ e_max |
| Calcfunctions.GridConsistent | src/aiida_oncvpsp/calcfunctions.py:16-17 | the consecutive-difference check holds iff there are fewer than two energy rows, or every row equals the first and the first has no NaN |
| Calcfunctions.ChainedRowsEqual | src/aiida_oncvpsp/calcfunctions.py:16-17 | consecutive rows are equal iff every row equals the first |
| Calcfunctions.WindowedGrid | src/aiida_oncvpsp/calcfunctions.py:21-27 | the sorted, windowed grid is ascending, no longer than the grid, and holds only energies inside the window |
| Calcfunctions.SortAndWindow | src/aiida_oncvpsp/calcfunctions.py:18-29 | the windowed data keeps one row per input row, and every row has the length of the windowed grid |
| Calcfunctions.WindowPositions | src/aiida_oncvpsp/calcfunctions.py:21-29 | each kept column comes from a grid position |
| Calcfunctions.SortThenMaskReadsWindowPositions | src/aiida_oncvpsp/calcfunctions.py:21-29 | permuting any row of the grid's length by the argsort and then masking it with the window reads it at the window positions |
| Calcfunctions.GatherIncreasing | src/aiida_oncvpsp/calcfunctions.py:26-27 | masking an ascending grid keeps it ascending |
| Calcfunctions.WindowSelectsEnergies | src/aiida_oncvpsp/calcfunctions.py:21-27 | the windowed grid is ascending, and it holds exactly the grid energies inside the closed window |
| Calcfunctions.WindowKeepsPairsAligned | src/aiida_oncvpsp/calcfunctions.py:21-29 | the kept columns come from distinct grid positions, which are exactly the positions whose energy lies in the window; a kept column's energy and both log-derivative values are those of its position in every row |
| Calcfunctions.SourcesAreWindowed | src/aiida_oncvpsp/calcfunctions.py:21-29 | every kept column's grid position has its energy in the window, and every such position is kept |
| Calcfunctions.PermutedWindow | src/aiida_oncvpsp/calcfunctions.py:21-27 | masking a permuted grid keeps exactly the grid positions whose energy lies in the window |
| Calcfunctions.MaxL | src/aiida_oncvpsp/calcfunctions.py:31 | max(l) bounds every l and is one of them |
| Calcfunctions.CountFor | src/aiida_oncvpsp/calcfunctions.py:35 | a bucket count never exceeds the number of rows |
| Calcfunctions.SumFor | src/aiida_oncvpsp/calcfunctions.py:33-34 | a bucket's error sum is zero when no row has that l, and never negative when no row error is |
| Calcfunctions.CountsPartitionRows | src/aiida_oncvpsp/calcfunctions.py:33-35 | every row falls into exactly one bucket: the counts of buckets 0..max add up to the number of rows |
| Calcfunctions.SumsPartitionErrors | src/aiida_oncvpsp/calcfunctions.py:33-34 | the bucket sums of 0..max add up to the sum of all per-row errors |
| Calcfunctions.Accumulate | src/aiida_oncvpsp/calcfunctions.py:31-35 | after the loop, bucket b holds the sum of the errors of the rows with l = b, and the number of those rows |
| Calcfunctions.RowErrors | src/aiida_oncvpsp/calcfunctions.py:34 | row i's error is the error measure applied to its windowed ae and ps rows |
| Calcfunctions.ComputeLogDerRmse | src/aiida_oncvpsp/calcfunctions.py:10-37 | inconsistent energy rows raise the assertion; no rows raise; otherwise l is 0..max(l), rmse has max(l)+1 entries, and entry b is the sum of bucket b's row errors over its count, or NaN for an empty bucket |

## Left out

- The AiiDA runtime is left out: data-node types, `self.out`, provenance, the input/output
  registration in `define` (calculations.py:19-38) and the code UUID (calculations.py:91).
  They are host-engine plumbing.
- File I/O is left out: opening the retrieved output file, writing the input file
  (calculations.py:80-81), and the log lines `_report_messages` writes. Reporting a
  message does change the result when the message has no line number: the `IndexError`
  it raises is modelled as `Raised(UnlocatedMessage)`.
- Parsers.Emit: when a later family raises, the outputs already passed to `self.out`
  for earlier families are not kept; the model reports only the raised error.
- The report's text parser, the input renderers and the error catalogue come from the
  `pyoncvpsp` dependency, which is not part of this model. They appear as opaque inputs.
- The direct copies into the local-potential, charge-density and kinetic-energy outputs
  (parsers.py:42-89) are left out. So are the UPF/PSP8 outputs with their uuid-based names
  (parsers.py:203-214) and the merged program/Teter parameters (parsers.py:215-222).
  They contain no logic beyond field copying.
- Floating point is left out. NaN padding is `None`. `np.allclose` is exact equality.
  The per-row root-mean-square error is the parameter `rowError`.
- Parsers.StackSemilocal: numpy converts the `l` column of the semilocal potentials to
  integers; the model stores every attribute as a real.
- Tables.Stack: the stacking error says which kind of exception is raised. It does not
  say which record or key raised it.
- Calculations.UpperChar, Calculations.Upper: upper-case ASCII letters only, not the full Unicode case
  mapping of Python's `str.upper`. Upper therefore keeps the length, which Python's does
  not for characters such as `ß`.
- Calculations.Lookup: assumes the engine's exit-code namespace behaves like a
  dictionary, where registering a label again overwrites it. The engine is not part of
  this model.
- Parsers.Parse returns a label. When the catalogue does not register
  ERROR_MULTIPLE_ERRORS, the engine raises an AttributeError while resolving it; the
  model states this case through Calculations.MultipleErrorsRegistered.
- Parsers.ParseCorrected looks up the error's raw name, as line 38 of parsers.py does,
  while `define` registers upper-cased names. The two match only for catalogue names
  that are already upper case.
- `hdf5_filename` is read by `prepare_for_submission` but is not declared among the
  options in `define`. The model takes it as a given option.
- Calcfunctions.ArgSort: numpy's default argsort does not fix the order of equal energies.
  The model breaks ties one particular way. Sortedness, the permutation and the alignment
  of rows hold for any tie order.
- Calcfunctions.ComputeLogDerRmse: requires the shape of a log-derivatives node. There is
  one `l` per row, and the energy, ae and ps tables share one rectangular shape. Angular
  momenta are natural numbers, so numpy's negative indexing is not modelled.

## Findings

| source | as written | input that shows it | evidently intended | confidence | as-written member | corrected member |
|---|---|---|---|---|---|---|
| src/aiida_oncvpsp/parsers.py:34-38 | `len(errors) > 0` is tested before `len(errors) == 1`, so the single-error branch is dead | a report with exactly one error, named after a registered exit code | one error returns its own exit code, or ERROR_UNKNOWN_ERROR if that code is not registered; only two or more return ERROR_MULTIPLE_ERRORS | high; not executed | Parsers.SingleErrorReportedAsMultiple | Parsers.ParseCorrectedSingleError |

`Parsers.Parse` models the chain as written, and the precedence lemmas above
are stated about it. `Parsers.ParseCorrected` is the chain with the
single-error test moved first. Outside the single-error case, it agrees with
`Parse`.
