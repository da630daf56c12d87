# Tyr core, modelled in Dafny

This project models the core of Tyr. Tyr is a classical planner that grounds planning tasks through a Datalog program. The repository also holds Python scripts that turn planner logs into experiment records. Every module below is a pure functional model of one source component, together with the properties the component promises. The properties are stated as contracts and lemmas, and all of them are proved.

The model covers five groups.

- **Log-to-record pipeline.** Modules `LogPatterns`, `GbfsLazyParser`, `DatalogSummaries`, `GroundTaskParser` and `CombinerPair`, with `Strings` for numerals and character classes. They cover:
  - the pattern table of the lazy-GBFS and ground-task log parsers, searched over the whole log;
  - the derived attributes (flags, unit conversions, coverage) in their registration order;
  - the section-scoped reader of the Datalog `Summary` blocks;
  - the run renaming of the pairwise combiner.

  Regular expressions are written as explicit recognisers of literal pieces, whitespace and digit runs.
- **Hash-consing repositories and merges.** Modules `IndexMixins`, `PlanningRepository`, `ScopedRepository`, `Merge`, `MergeLaws`, `MergePlanning`, `RuleWorkspace` and `ProgramNames`.
  - A repository is a sequence of entries over an optional parent.
  - A merge is a structural translation that ends in `get_or_create`. The laws are that a merge finds its result afterwards, changes nothing else and is idempotent.
  - The fluent rule of a Datalog rule and the applicability predicates and names of the planning-to-Datalog translation are built the same way.
- **Grounding combinatorics.** They cover:
  - the perfect assignment hash and the per-predicate assignment set (`AssignmentSet`, `AssignmentSetLaws`, `Ranks`);
  - the two delta k-partite k-clique enumerators and their graph (`DeltaKpkc`, `DeltaKpkcSearch`, `DeltaKpkc2`, `DeltaKpkc2Search`, `DeltaKpkcGraph`);
  - bitset views (`BitsetViews`);
  - the upper-triangular variable dependency graph (`VariableDependency`);
  - variable-domain analysis (`VariableDomains`);
  - listener maps (`Listeners`);
  - the cartesian-product odometer (`Cartesian`);
  - in-place set operations (`SetOps`);
  - sorting and deduplication (`Sorting`);
  - atom grounding (`Generator`).

  Bitsets are sets of natural numbers or sequences of booleans.
- **Applicability and expression metrics.** They cover:
  - Datalog and planning applicability of literals, FDR facts, conditions, numeric effects and actions (`DatalogApplicability`, `PlanningApplicability`);
  - effective arity (`Arity`);
  - function-term collection (`ExpressionProperties`);
  - the numeric effect operators (`NumericEffectOperators`).

  Expressions are shared through `Expressions`, and the formalism's terms and atoms through `Formalism`. A float that may be NaN is an `Option<real>`, with `None` for NaN. Arithmetic is exact.
- **Search bookkeeping and utilities.** They cover:
  - the BrFS driver (`Brfs`);
  - the node table and queue keys of lazy GBFS (`GbfsLazy`);
  - the event-handler statistics (`EventHandlers`);
  - the packing of states into sorted index lists and the state table (`TaskStates`);
  - span iterators (`Span`);
  - the text formats of assignments and consistency graphs (`Formatter`).

`Wrappers` holds `Option` and `Result`. `Result` is used where the modelled code throws.

Several anomalies of the code are modelled as written:

- **Assignment counter.** The counter of the perfect assignment hash is read before it is written (include/tyr/grounder/assignment_set.hpp:39,51). The model takes it to start at 0 (`AssignmentSet.InitialCount`).
- **Function index.** Merging a function term copies the source function index without merging the function (src/formalism/planning/merge.cpp:231,250). `MergeLaws.FunctionIndexDangles` shows that the copied index need not name the merged function.
- **Name drift.** Field and namespace names differ between src/datalog/delta_kpkc.cpp and include/tyr/datalog/delta_kpkc.hpp. The model follows the header's names and the source file's behaviour.
- **BrFS goal test.** BrFS goal-tests only newly generated successors, never the initial state, so a reported plan has length at least 1.
- **Unguarded division.** `search_time_us_per_expanded` divides by `num_expanded` without a guard. The model returns an error when the count is absent or zero.

The three code defects listed under "## Findings" are modelled both as written and corrected; the rest of the model uses the corrected definitions.

## Model

| member | source | states |
|---|---|---|
| LogPatterns.FirstWhereLeftmost | experiments/parser_gbfs_lazy.py:274-289 | the scan behind every pattern search (`FirstMatchAt` is this scan with the test "the pattern matches here"): the reported position passes the test, no earlier one does, and `None` means no position does |
| LogPatterns.SearchOccurs | experiments/parser_gbfs_lazy.py:274-289 | a reported capture is the capture of a real occurrence of the pattern in the log |
| LogPatterns.AddIntPattern | experiments/parser_gbfs_lazy.py:274-285 | `add_pattern(..., type=int)`: the key is present afterwards iff it was before or the pattern occurs, then holds the integer of the first occurrence; all other keys are untouched |
| LogPatterns.AddStrPattern | experiments/parser_gbfs_lazy.py:286-287 | `add_pattern("(literal)", type=str)`: the key receives the literal iff the literal occurs; all other keys are untouched |
| LogPatterns.ApplyPattern | experiments/parser_gbfs_lazy.py:274-289 | one registered pattern writes only its own key, and writes it exactly when it finds something |
| LogPatterns.ApplyPatternsFill | experiments/parser_gbfs_lazy.py:274-289 | with distinct keys, from whatever record the run already has, each pattern's key is present iff it was there before or its pattern occurs, holding what the pattern found or else its old value; every other key keeps its presence and value |
| LogPatterns.MatchLiteralThenNumber | experiments/parser_gbfs_lazy.py:274 | `literal (\d+)` on the literal, a printed number and text that does not continue the digits captures exactly that number |
| LogPatterns.FirstWhereSkipsPrefix | experiments/parser_gbfs_lazy.py:274-289 | text at none of whose positions the test passes, put in front, leaves a miss a miss and shifts the first hit by exactly its length |
| LogPatterns.SearchFindsAtPrefixEnd | experiments/parser_gbfs_lazy.py:274-289 | text that holds no match, put in front of a log that starts with a match, makes the search report that match, at the end of the added text, with its capture |
| Strings.NatToStringRoundTrip | src/planning/programs/common.cpp:29 | a number printed in decimal (`std::to_string`) is read back by `\d+` as the same number |
| Strings.NatToStringInjective | src/planning/programs/common.cpp:29 | distinct numbers print as distinct numerals |
| Strings.NatToString | src/planning/programs/common.cpp:29 | a printed number is a non-empty run of decimal digits with no leading zero |
| Strings.Strip | experiments/parser_gbfs_lazy.py:78 | `raw.strip()`: the result neither starts nor ends with whitespace and holds only characters of the line |
| Strings.StripIsTrimmedSlice | experiments/parser_gbfs_lazy.py:78 | `raw.strip()` keeps one contiguous slice of the line: everything before and after it is whitespace, and the slice neither starts nor ends with whitespace |
| Strings.StripOfTrimmed | experiments/parser_gbfs_lazy.py:78 | a line with no whitespace at either end is left unchanged by the strip |
| Strings.SplitLines | experiments/parser_gbfs_lazy.py:77 | `content.splitlines()` on '\n'-separated text: no piece contains a newline |
| Strings.SplitLinesJoin | experiments/parser_gbfs_lazy.py:77 | `content.splitlines()` loses nothing but the separators: joining the lines with '\n' gives the text back, without its final newline when it ends with one |
| Strings.DigitRunLength | experiments/parser_gbfs_lazy.py:40 | `\d+` is greedy: the run it takes is all digits and is not followed by another digit |
| Strings.SkipSpaces | experiments/parser_gbfs_lazy.py:40 | `\s*` is greedy: it consumes whitespace only and stops at the first non-space |
| GbfsLazyParser.ProcessInvalid | experiments/parser_gbfs_lazy.py:8-9 | `invalid` is always written: 1 when the key was present before, else 0; every other key is unchanged |
| GbfsLazyParser.ProcessUnsolvable | experiments/parser_gbfs_lazy.py:11-12 | `unsolvable` is always written: 1 when the key was present before, else 0; every other key is unchanged |
| GbfsLazyParser.Divide | experiments/parser_gbfs_lazy.py:24 | Python's `/` succeeds exactly on two numbers with a non-zero divisor and gives their quotient |
| GbfsLazyParser.Convert | experiments/parser_gbfs_lazy.py:14-20 | a unit conversion writes `source / divisor` to its target only when the source key is present; otherwise the record stays as it was |
| GbfsLazyParser.ConvertNumeric | experiments/parser_gbfs_lazy.py:26-28 | when the values the conversions read are numbers, a conversion (seconds, megabytes) from one of them never fails, keeps those values numbers and changes only its target key |
| GbfsLazyParser.AddSearchTimeUsPerExpanded | experiments/parser_gbfs_lazy.py:22-24 | without `search_time_ns` nothing changes; with it, a missing or zero `num_expanded` is a failure (no guard), otherwise the target is ns/1000/num_expanded |
| GbfsLazyParser.AddCoverage | experiments/parser_gbfs_lazy.py:30-34 | `coverage` is always written, 1 iff `length` is present or `unsolvable` is truthy, else 0; nothing else changes |
| GbfsLazyParser.PatternKeysDistinct | experiments/parser_gbfs_lazy.py:274-289 | the twelve registered patterns write twelve different keys |
| GbfsLazyParser.StrPatternKeys | experiments/parser_gbfs_lazy.py:286-287 | only `unsolvable` and `invalid` are string patterns |
| GbfsLazyParser.ReadKeysArePatternKeys | experiments/parser_gbfs_lazy.py:14-28 | every key the derived functions divide is written by one of the integer patterns |
| GbfsLazyParser.PatternValuesAreInts | experiments/parser_gbfs_lazy.py:274-289 | apart from the two flags, every key the patterns add to the run's record holds an integer |
| GbfsLazyParser.FlagsMakeNumeric | experiments/parser_gbfs_lazy.py:291-292 | `process_invalid` and `process_unsolvable` write only the two flags, so integers under the keys the later functions divide stay numbers |
| GbfsLazyParser.DeriveFailsIff | experiments/parser_gbfs_lazy.py:291-297 | the derived functions, in registration order, fail exactly when `search_time_ns` is present and `num_expanded` is missing or zero |
| GbfsLazyParser.DeriveKeeps | experiments/parser_gbfs_lazy.py:14-34 | a successful derivation changes no key other than the five it writes (`search_time`, `total_time`, `search_time_us_per_expanded`, `memory`, `coverage`) |
| GbfsLazyParser.DeriveFlags | experiments/parser_gbfs_lazy.py:291-297 | `process_unsolvable` runs before `add_coverage`, so on success coverage is 1 iff a length or the unsolvable string was there, and `invalid` is 1 iff it was there, whatever else the record holds |
| GbfsLazyParser.RecordAt | experiments/parser_gbfs_lazy.py:274-289 | when the run's record holds none of the pattern keys, each pattern's key is in the pattern record iff that pattern finds something, holding what it found |
| GbfsLazyParser.LengthRecorded | experiments/parser_gbfs_lazy.py:275 | `length` is recorded iff the plan-length pattern occurs in the log |
| GbfsLazyParser.NsRecorded | experiments/parser_gbfs_lazy.py:279 | `search_time_ns` is recorded iff the `Search time: <ms> ms (<ns> ns)` pattern occurs |
| GbfsLazyParser.ExpandedRecorded | experiments/parser_gbfs_lazy.py:280 | `num_expanded` is recorded iff its pattern occurs, holding the number it captured |
| GbfsLazyParser.ParseFailsIff | experiments/parser_gbfs_lazy.py:272-298 | when the run's record holds none of the pattern keys, the whole parser fails exactly when the log reports a nanosecond search time but no expansion count, or a count of zero |
| GbfsLazyParser.ParseFlags | experiments/parser_gbfs_lazy.py:286-298 | when the run's record holds none of the pattern keys, on success coverage is 1 iff the log shows a plan length or the unsolvable message, `invalid` is 1 iff it shows an invalid plan, and section parsing (last) cannot overwrite either |
| DatalogSummaries.SectionName | experiments/parser_gbfs_lazy.py:37 | a marker line `[<name>] Summary` yields a non-empty name without `]`, the text between the first brackets |
| DatalogSummaries.SectionNameOfMarker | experiments/parser_gbfs_lazy.py:37 | every marker line built from a name without `]` and a whitespace gap is recognised, giving back that name |
| DatalogSummaries.MarkerSetsCursor | experiments/parser_gbfs_lazy.py:82-85 | a marker line sets the cursor to the mapped prefix (none for an unknown name) and writes nothing |
| DatalogSummaries.NoKnownSectionNoWrites | experiments/parser_gbfs_lazy.py:87-88 | while no known section is open, no line writes anything |
| DatalogSummaries.PutAll | experiments/parser_gbfs_lazy.py:90-91 | every write lands under `<prefix>_<suffix>`; keys outside that namespace are unchanged and no key is lost |
| DatalogSummaries.StepKeepsOtherKeys | experiments/parser_gbfs_lazy.py:77-91 | one line keeps the cursor among the three prefixes (or none) and changes no key outside the section namespaces |
| DatalogSummaries.RunKeepsOtherKeys | experiments/parser_gbfs_lazy.py:77-174 | keys outside the `succgen_`, `axiom_` and `ff_` namespaces are never touched by the section loop |
| DatalogSummaries.ParseKeepsOtherKeys | experiments/parser_gbfs_lazy.py:74-174 | `parse_datalog_summaries` touches no key outside the three section namespaces |
| DatalogSummaries.FirstRuleWrites | experiments/parser_gbfs_lazy.py:93-174 | non-empty writes of a line are those of a pattern that matches it |
| DatalogSummaries.FirstRuleWritesLeast | experiments/parser_gbfs_lazy.py:93-174 | the writes of a line are those of the first pattern that matches it, since each match ends with `continue`; a line that no pattern matches writes nothing |
| DatalogSummaries.FirstRuleWins | experiments/parser_gbfs_lazy.py:94-95 | when the first pattern matches, its writes are the ones taken |
| DatalogSummaries.ProgramExecutionsLine | experiments/parser_gbfs_lazy.py:94-95 | a single-spaced `Num executions` line writes `prog_num_exec` with the printed number and nothing else |
| DatalogSummaries.ReadNum | experiments/parser_gbfs_lazy.py:40 | `(\d+)` fails iff the text does not start with a digit, and otherwise stops before a non-digit |
| DatalogSummaries.ReadNumOfNumeral | experiments/parser_gbfs_lazy.py:40 | a printed number followed by a non-digit is read back as itself |
| DatalogSummaries.Skip | experiments/parser_gbfs_lazy.py:40-65 | matching the literal words and `\s*`/`\s+` gaps of a pattern consumes a prefix of the line |
| DatalogSummaries.SkipRendered | experiments/parser_gbfs_lazy.py:40-65 | a well-formed piece sequence consumes exactly its single-spaced rendering, in either letter-case mode |
| DatalogSummaries.AfterLast | experiments/parser_gbfs_lazy.py:41 | `.*w` ends at the last occurrence of `w`: it occurs there, nowhere later, and `None` means it does not occur |
| DatalogSummaries.AfterLastOfFinal | experiments/parser_gbfs_lazy.py:41 | `.*w` stops at the final occurrence of `w` when nothing after it can end another one |
| DatalogSummaries.CountLineRoundTrip | experiments/parser_gbfs_lazy.py:122-129 | a count line `<tag> <caption> <n>` writes its key with the number `n` |
| DatalogSummaries.TimedTailRoundTrip | experiments/parser_gbfs_lazy.py:41-43 | after the colon, the figure, the unit and the optional `( <ns> ns )` group are read back exactly |
| DatalogSummaries.TimedLineRoundTrip | experiments/parser_gbfs_lazy.py:97-102 | a timed line always writes its main figure and writes the `_ns` key only when the nanosecond group is present |
| DatalogSummaries.NsFigureOfRendered | experiments/parser_gbfs_lazy.py:41 | the optional `( <n> ns )` group reads back as `n` |
| DatalogSummaries.DecimalOfDigits | experiments/parser_gbfs_lazy.py:119 | `float(v)` on `<whole>.<digits>` is the decimal number the digits denote |
| DatalogSummaries.FractionLineRoundTrip | experiments/parser_gbfs_lazy.py:118-119 | a parallel-fraction line writes the decimal it shows, in any letter case of its words |
| DatalogSummaries.SkewTailInfinite | experiments/parser_gbfs_lazy.py:58-61 | the skew figure `inf` is recognised in any letter case as the infinite value |
| DatalogSummaries.SkewLineInfinite | experiments/parser_gbfs_lazy.py:164-168 | a skew line showing `inf` in any case stores +infinity, whatever text stands between head and caption |
| GroundTaskParser.AddDummyAttribute | experiments/parser_ground_task.py:6-7 | `dummy_attribute` becomes 1 whatever the log says; no other key changes |
| GroundTaskParser.GroundKeysDistinct | experiments/parser_ground_task.py:19-23 | the five patterns write five different keys |
| GroundTaskParser.GroundPatternsAreInts | experiments/parser_ground_task.py:19-23 | every pattern is an integer pattern and none writes the dummy attribute |
| GroundTaskParser.ParseRecord | experiments/parser_ground_task.py:17-24 | each count key is present iff it was in the run's record or its pattern occurs, and holds the captured integer when the pattern occurs; the dummy attribute is 1; every other key of the run's record is untouched and no other key appears |
| GroundTaskParser.TimeNeedsUnit | experiments/parser_ground_task.py:23 | after the grounding-time literal and number the pattern matches iff ` ms` follows, and then captures the number |
| GroundTaskParser.RecordOfCaptures | experiments/parser_ground_task.py:19-24 | when the five patterns capture these numbers the record is the run's record with those five integers and the dummy attribute written over it, and nothing else changed |
| GroundTaskParser.RecordKeys | experiments/parser_ground_task.py:17-24 | a parse adds no key other than the five counts and the dummy attribute, and every other key of the run's record keeps its value |
| GroundTaskParser.DocumentedLog | experiments/parser_ground_task.py:10-16 | a log in the documented layout sets exactly its five numbers and the dummy attribute over the run's record (the docstring gives 90901, 0, 180600, 0, 5049) |
| CombinerPair.RenameAlgorithmRenames | experiments/2026-1-8-combiner-pair.py:83-97 | each of `gbfs-lazy-ff-{1,2,4,8}` becomes `old-` + name in both `algorithm` and `id[0]` (a failure when `id` is empty); any other run is returned unchanged |
| CombinerPair.OldNamesNotRenamed | experiments/2026-1-8-combiner-pair.py:85-96 | no `old-` name is one of the four names the filter renames |
| CombinerPair.RenameIdempotent | experiments/2026-1-8-combiner-pair.py:85-96 | filtering an already filtered run changes nothing more |
| CombinerPair.RenameInjective | experiments/2026-1-8-combiner-pair.py:85-97 | two runs of different algorithms that are both renamed, or both left alone, keep different names |
| IndexMixins.Default | include/tyr/common/index_mixins.hpp:37-42 | a default index holds the sentinel `MAX` and counts as unassigned |
| IndexMixins.ComparisonsConsistent | include/tyr/common/index_mixins.hpp:48-53 | the six comparisons are those of the wrapped value: `==` is identity, `<` and `>=` are complementary, the order is total |
| IndexMixins.IdentityIsValue | include/tyr/common/index_mixins.hpp:55-60 | two indices with equal identifying members are equal, `get_value` returns the wrapped value, and an index is assigned iff it differs from the default |
| PlanningRepository.FindLocal | include/tyr/formalism/planning/repository.hpp:143-151 | a local hit names an entry holding the data with that index; a miss means no entry holds it |
| PlanningRepository.GetOrCreate | include/tyr/formalism/planning/repository.hpp:167-181 | data already visible (parent first) returns its index with `false` and changes nothing; new data gets index parent size + local size with `true` and grows the size by one |
| PlanningRepository.FindSound | include/tyr/formalism/planning/repository.hpp:157-164 | in a well-indexed chain, a found index is below `size` and `operator[]` at it returns the data |
| PlanningRepository.FindComplete | include/tyr/formalism/planning/repository.hpp:183-200 | every stored element is found again at its own index, the parent's hit taking precedence |
| PlanningRepository.GetOrCreateFinds | include/tyr/formalism/planning/repository.hpp:166-181 | after `get_or_create(x)`, `x` is found at the returned index and every other lookup is unchanged |
| PlanningRepository.GetOrCreatePreserves | include/tyr/formalism/planning/repository.hpp:173-180 | insertion keeps the chain well indexed, keeps the parent size and leaves every existing index reading the same element |
| PlanningRepository.GetOrCreateIdempotent | include/tyr/formalism/planning/repository.hpp:166-181 | inserting the same data twice returns the same index, the second time with `false` and no change |
| PlanningRepository.FrontIsFirst | include/tyr/formalism/planning/repository.hpp:202-210 | `front` (root-most non-empty repository) is the element at index 0 |
| PlanningRepository.Clear | include/tyr/formalism/planning/repository.hpp:220-224 | clearing empties only the local slots: `size` falls back to the parent's size |
| PlanningRepository.ClearFinds | include/tyr/formalism/planning/repository.hpp:220-224 | after `clear` a lookup finds exactly what the parent finds, and a well-indexed chain stays well indexed |
| ScopedRepository.ScopedFind | include/tyr/formalism/scoped_repository.hpp:36-52 | the global repository is consulted first; only on a global miss is the local one consulted |
| ScopedRepository.ScopedGetOrCreate | include/tyr/formalism/scoped_repository.hpp:54-76 | data found (globally or locally) returns its index with `false` and nothing changes; new data is given index global size + local size |
| ScopedRepository.AsChildAgrees | include/tyr/formalism/scoped_repository.hpp:54-76 | a scoped pair behaves, for `find`, `size` and `get_or_create`, like a repository whose parent is the global one |
| ScopedRepository.ScopedFindSound | include/tyr/formalism/scoped_repository.hpp:36-94 | with the local index shifted by the global size, every found index is in range and reads back the data |
| ScopedRepository.AsWrittenMissesLocal | include/tyr/formalism/scoped_repository.hpp:87-94 | as written, the first locally created element (index = global size) is read at that unshifted position of the local store, which is out of range |
| Merge.GetOrCreateInSpec | src/formalism/planning/merge.cpp:47-48 | every merge ends in `get_or_create`: the destination only grows, the element is then found at the returned index, and an existing element returns its index with `false` |
| MergeLaws.VariableMerged | src/formalism/planning/merge.cpp:39-49 | a variable is stored under its own name; re-merging finds it and returns `false` |
| MergeLaws.ObjectMerged | src/formalism/planning/merge.cpp:51-61 | an object is stored under its own name; re-merging finds it and returns `false` |
| MergeLaws.BindingMerged | src/formalism/planning/merge.cpp:63-73 | a binding's object list is copied verbatim and the binding is then found at the returned index |
| MergeLaws.TermMerged | src/formalism/planning/merge.cpp:75-90 | a parameter term passes through unchanged; an object term becomes its merged object index; a merged term is found again |
| MergeLaws.TermsMerged | src/formalism/planning/merge.cpp:119-121 | merging a term list in order extends the destination and gives the list of merged terms |
| MergeLaws.PredicateMerged | src/formalism/planning/merge.cpp:94-106 | a predicate is stored with its name and arity under its tag; `true` iff it was not there before |
| MergeLaws.AtomMerged | src/formalism/planning/merge.cpp:112-125 | an atom is stored as (merged predicate, merged terms); an existing atom returns its index with `false` |
| MergeLaws.GroundAtomMerged | src/formalism/planning/merge.cpp:131-143 | a ground atom keeps its object list verbatim under its merged predicate |
| MergeLaws.GroundAtomsMerged | src/formalism/planning/merge.cpp:155-158 | the ground atoms of an FDR variable are merged in order, each found at the index returned for it |
| MergeLaws.FDRVariableMerged | src/formalism/planning/merge.cpp:149-161 | an FDR variable keeps `domain_size` and its atoms merged in order |
| MergeLaws.FDRFactMerged | src/formalism/planning/merge.cpp:163-166 | an FDR fact keeps its value and points at its merged variable |
| MergeLaws.LiteralMerged | src/formalism/planning/merge.cpp:168-180 | a literal keeps its polarity and merges only its atom |
| MergeLaws.LiteralsMerged | src/formalism/planning/merge.cpp:503-508 | the literal lists of a condition are merged element by element, in order |
| MergeLaws.GroundLiteralMerged | src/formalism/planning/merge.cpp:186-198 | a ground literal keeps its polarity and merges only its ground atom |
| MergeLaws.FunctionMerged | src/formalism/planning/merge.cpp:206-218 | a function is stored with its name and arity; `true` iff it was not there before |
| MergeLaws.FunctionTermMerged | src/formalism/planning/merge.cpp:224-237 | a function term is stored with the source function index and its merged terms, and is found at the returned index |
| MergeLaws.GroundFunctionTermMerged | src/formalism/planning/merge.cpp:243-255 | a ground function term keeps the source function index and its object list verbatim; `true` iff it was new |
| MergeLaws.GroundFunctionTermValueMerged | src/formalism/planning/merge.cpp:262-274 | a ground function-term value keeps its number and points at its merged function term |
| MergeLaws.ExprMerged | src/formalism/planning/merge.cpp:283-298 | an expression merge extends the destination, is found again, and passes a float constant through unchanged |
| MergeLaws.ExprsMerged | src/formalism/planning/merge.cpp:391-402 | the argument list of a multi-operator is merged in order |
| MergeLaws.BoolMerged | src/formalism/planning/merge.cpp:425-428 | a boolean operator keeps its comparison and is found again after merging |
| MergeLaws.NumericEffectMerged | src/formalism/planning/merge.cpp:436-447 | a numeric effect keeps its operator, with its function term and expression merged |
| MergeLaws.GroundNumericEffectMerged | src/formalism/planning/merge.cpp:459-470 | a ground numeric effect keeps its operator, with its ground function term and expression merged |
| MergeLaws.VariablesMerged | src/formalism/planning/merge.cpp:500-501 | the variable list of a condition is merged in order |
| MergeLaws.ConjCondMerged | src/formalism/planning/merge.cpp:495-514 | a conjunctive condition is stored with all of its parts merged; an existing one returns its index with `false` |
| MergeLaws.AxiomMerged | src/formalism/planning/merge.cpp:516-529 | an axiom is stored with merged variables, body and head |
| MergeLaws.MetricMerged | src/formalism/planning/merge.cpp:531-542 | a metric keeps its objective and stores its merged expression |
| MergeLaws.AxiomMergeIdempotent | src/formalism/planning/merge.cpp:516-529 | merging the same axiom twice into the same destination gives the same index, the second time with `false` and no change |
| MergeLaws.ExprMergeIdempotent | src/formalism/planning/merge.cpp:283-298 | merging the same expression twice gives the same result and leaves the destination as after the first merge |
| MergeLaws.ExprStable | src/formalism/planning/merge.cpp:283-298 | a lookup that succeeds in a destination succeeds identically in every extension of it, so merges never invalidate earlier results |
| MergeLaws.ConjCondStable | src/formalism/planning/merge.cpp:495-514 | looking up a condition gives the same result in every extension of the destination |
| MergeLaws.GetOrCreateInTouches | src/formalism/planning/merge.cpp:47-48 | `get_or_create` touches only the container of its own element type |
| MergeLaws.TermsTouchObjectsOnly | src/formalism/planning/merge.cpp:75-90 | merging terms changes no container but the objects' |
| MergeLaws.FunctionTermKeepsSourceIndex | src/formalism/planning/merge.cpp:231 | merging a function term leaves the function containers untouched and stores the source function index as is |
| MergeLaws.FunctionIndexDangles | src/formalism/planning/merge.cpp:231 | a function term whose function was never merged is stored pointing at an index that names no function in the destination |
| MergePlanning.ToPlanningPayload | include/tyr/formalism/planning/merge_planning.hpp:117-136 | a datalog (ground) function-expression payload maps to the planning one; every planning payload maps to itself |
| MergePlanning.MergeExprD2P | include/tyr/formalism/planning/merge_planning.hpp:329-345 | a datalog function expression is merged into the containers of its planning payload: the destination only grows, the result is found there afterwards, an expression already present is returned with no change, and a float constant passes through |
| MergePlanning.DatalogExprSharesPlanningEntries | include/tyr/formalism/planning/merge_planning.hpp:330-345 | a datalog expression merged after the same planning expression finds every part and adds nothing: both use the planning containers |
| MergePlanning.PredicateRetagged | include/tyr/formalism/planning/merge_planning.hpp:199-211 | a predicate is stored with name and arity under the destination tag `T_DST`, and the source tag's containers are left alone |
| MergePlanning.AtomRetagged | include/tyr/formalism/planning/merge_planning.hpp:213-226 | an atom is stored under the destination tag with its retagged predicate; the source tag's predicate and atom containers are untouched |
| MergePlanning.GroundAtomRetagged | include/tyr/formalism/planning/merge_planning.hpp:228-240 | a ground atom copies its objects under the retagged predicate; the source tag's containers are untouched |
| MergePlanning.LiteralRetagged | include/tyr/formalism/planning/merge_planning.hpp:242-254 | a literal keeps its polarity and is stored under the destination tag |
| MergePlanning.GroundLiteralRetagged | include/tyr/formalism/planning/merge_planning.hpp:256-268 | a ground literal keeps its polarity and is stored under the destination tag |
| MergePlanning.AtomTouches | include/tyr/formalism/planning/merge_planning.hpp:213-226 | merging an atom changes only the containers of its predicate, of the objects and of atoms |
| MergePlanning.GroundAtomTouches | include/tyr/formalism/planning/merge_planning.hpp:228-240 | merging a ground atom changes only the containers of its predicate and of ground atoms |
| AssignmentSet.BuildHash | include/tyr/grounder/assignment_set.hpp:43-66 | the constructor: one remapping and one offset per parameter plus the sentinel row; `offsets[i+1]` is the running count at parameter i's sentinel; the count is 1 + the sum over parameters of (1 + domain size) |
| AssignmentSet.RemapOf | include/tyr/grounder/assignment_set.hpp:55-63 | a parameter's remapping has one slot per object plus the sentinel slot |
| AssignmentSet.NewSet | include/tyr/grounder/assignment_set.hpp:112-117 | a new assignment set has every bit cleared |
| AssignmentSet.Reset | include/tyr/grounder/assignment_set.hpp:119 | `reset` clears every bit and keeps the hash |
| AssignmentSet.InsertGroundAtom | include/tyr/grounder/assignment_set.hpp:121-145 | insertion keeps the hash and only sets bits |
| AssignmentSetLaws.SlotStep | include/tyr/grounder/assignment_set.hpp:53-64 | consecutive sentinels lie one sentinel plus one domain apart |
| AssignmentSetLaws.SlotGap | include/tyr/grounder/assignment_set.hpp:53-64 | the block of parameter i ends before the sentinel of every later parameter |
| AssignmentSetLaws.RemapOfBounds | include/tyr/grounder/assignment_set.hpp:55-63 | the sentinel slot maps to 0, every slot maps to at most the domain size, and a slot is non-zero exactly for the domain's objects |
| AssignmentSetLaws.RemapOfPosition | include/tyr/grounder/assignment_set.hpp:59-63 | without duplicates, the k-th domain object is renumbered k + 1 |
| AssignmentSetLaws.VertexRankShape | include/tyr/grounder/assignment_set.hpp:68-79 | a vertex rank is the parameter's sentinel offset plus the remapped object |
| AssignmentSetLaws.VertexRankBounds | include/tyr/grounder/assignment_set.hpp:68-79 | a vertex rank lies in its parameter's block, is the sentinel exactly for an object outside the domain, and is below the count |
| AssignmentSetLaws.VertexRankPosition | include/tyr/grounder/assignment_set.hpp:68-79 | without duplicates, the k-th object of a domain ranks k + 1 after its sentinel |
| AssignmentSetLaws.VertexRankEqual | include/tyr/grounder/assignment_set.hpp:68-79 | the hash is perfect: two vertex assignments share a rank iff they name the same parameter and the same object, or two objects both outside its domain |
| AssignmentSetLaws.EdgeRankBounds | include/tyr/grounder/assignment_set.hpp:81-98 | an edge rank j1 * N + j2 lies in [N, N * N): it fits the bitset and never collides with a vertex rank |
| AssignmentSetLaws.EdgeRankEqual | include/tyr/grounder/assignment_set.hpp:81-96 | two edge assignments share a rank iff both endpoints are indistinguishable, in order |
| AssignmentSetLaws.InsertEdgesMembers | include/tyr/grounder/assignment_set.hpp:136-143 | the inner loop adds exactly the edges from the first position to each later position |
| AssignmentSetLaws.InsertVerticesMembers | include/tyr/grounder/assignment_set.hpp:129-144 | the outer loop adds exactly the vertex of every position and the edge of every ordered pair of positions |
| AssignmentSetLaws.InsertedVertex | include/tyr/grounder/assignment_set.hpp:147 | after inserting an atom, a vertex assignment tests true iff it did before or the atom's object at that parameter is indistinguishable from it |
| AssignmentSetLaws.InsertedEdge | include/tyr/grounder/assignment_set.hpp:148 | after inserting an atom, an edge assignment tests true iff it did before or it joins two positions first < second whose objects are indistinguishable from its own |
| AssignmentSetLaws.InsertKeepsRange | include/tyr/grounder/assignment_set.hpp:112-145 | insertion sets only bits below `size()` = N * N |
| AssignmentSetLaws.AddedIgnoresBits | include/tyr/grounder/assignment_set.hpp:121-145 | the bits an atom sets depend only on the hash and the atom, not on the bits already set |
| AssignmentSetLaws.InsertIdempotent | include/tyr/grounder/assignment_set.hpp:121-145 | inserting the same ground atom twice sets no further bit |
| AssignmentSetLaws.InsertCommutes | include/tyr/grounder/assignment_set.hpp:121-145 | the order in which ground atoms are inserted does not matter |
| Ranks.PairRankBounds | include/tyr/grounder/assignment_set.hpp:91-93 | for components below N, the rank j1 * N + j2 is below N * N, and at least N when j1 >= 1 |
| Ranks.PairRankInjective | include/tyr/grounder/assignment_set.hpp:91 | two pairs of components below N have the same rank iff they are the same pair |
| Ranks.PairRankRowOrder | include/tyr/datalog/delta_kpkc.hpp:125-130 | with the rank taken in unbounded arithmetic, every pair of a lower row ranks below every pair of a higher row |
| Ranks.MakeEdge | include/tyr/datalog/delta_kpkc2.hpp:54 | the edge constructor puts the smaller vertex first and keeps the same two endpoints |
| Ranks.EdgeRankInjective | include/tyr/datalog/delta_kpkc2.hpp:54-61 | with the rank taken in unbounded arithmetic, two edges between vertices below nv have the same rank iff they join the same pair of vertices, in either orientation |
| Ranks.EdgeRankBound | include/tyr/datalog/delta_kpkc_graph.hpp:57 | with the rank taken in unbounded arithmetic, the rank of an edge between two of nv vertices is below nv * nv |
| Ranks.EdgeRankAsWrittenAgrees | include/tyr/datalog/delta_kpkc2.hpp:61 | the rank computed in 32-bit `uint_t` (include/tyr/common/config.hpp:35) is below 2^32, and for at most 65536 vertices it never wraps and equals the unbounded rank |
| Ranks.EdgeRankAsWrittenWraps | include/tyr/datalog/delta_kpkc.hpp:125-130 | with 65537 vertices the 32-bit rank wraps: two different edges share rank 65535, and an edge of row 65535 ranks below an edge of row 1 |
| DeltaKpkc.AllocateConstGraph | src/datalog/delta_kpkc.cpp:45-64 | the layout has k = number of partitions, keeps the partitions and maps every vertex to a partition |
| DeltaKpkc.VertexToPartition | src/datalog/delta_kpkc.cpp:53-61 | the vertex-to-partition table has one entry per vertex |
| DeltaKpkc.VertexToPartitionLast | src/datalog/delta_kpkc.cpp:54-61 | a vertex maps to the last partition that lists it, or to 0 when none does |
| DeltaKpkc.VertexToPartitionOwn | src/datalog/delta_kpkc.cpp:54-61 | with disjoint partitions every listed vertex maps to its own partition |
| DeltaKpkc.AllocateEmptyGraph | src/datalog/delta_kpkc.cpp:66-79 | an empty graph has nv cleared vertex bits and nv cleared rows |
| DeltaKpkc.NewWorkspace | src/datalog/delta_kpkc.cpp:33-43 | the workspace has k by k cleared candidate bitsets, each sized to its partition, no used partition and an empty partial solution |
| DeltaKpkc.NewEnumerator | src/datalog/delta_kpkc.cpp:81-88 | the enumerator starts with both graphs empty, a well-shaped workspace and iteration 0 |
| DeltaKpkc.ResetGraph | include/tyr/datalog/delta_kpkc.hpp:50-55 | `Graph::reset` clears the vertices and every row, keeping the row count |
| DeltaKpkc.Reset | include/tyr/datalog/delta_kpkc.hpp:81-85 | `reset` clears both graphs and leaves layout, workspace and iteration alone |
| DeltaKpkc.SetNextAssignmentSets | src/datalog/delta_kpkc.cpp:99-170 | the iteration count goes up by one; the new full graph holds the consistent vertices; the delta holds NEW and not OLD for vertices and for every row; depth-0 candidates are all set, partition bits cleared, deeper depths untouched |
| DeltaKpkc.AddEdgesMembers | src/datalog/delta_kpkc.cpp:130-140 | after adding the consistent edges to cleared rows, v is in row u iff some edge joins u and v in either orientation |
| DeltaKpkc.FullGraphUndirected | src/datalog/delta_kpkc.cpp:130-140 | the new full graph is symmetric, loop-free and within the nv vertices |
| DeltaKpkc.SeedFromAnchor | include/tyr/datalog/delta_kpkc.hpp:148-179 | seeding from (i, j) sets the partial solution to [i, j], records the anchor's rank, marks both partitions used, and keeps at depth 0 only full-graph neighbours of both whose delta edges to i or j rank above the anchor |
| DeltaKpkc.ChooseBestPartition | include/tyr/datalog/delta_kpkc.hpp:181-203 | the result is the unused partition with the fewest candidates, the lowest index among equals, and the sentinel exactly when all partitions are used |
| DeltaKpkc.NumPossibleAdditions | include/tyr/datalog/delta_kpkc.hpp:245-257 | the loop counts exactly the partitions that are unused and still have a candidate at the next depth, so the count is at most k |
| DeltaKpkc.AdvanceCandidates | include/tyr/datalog/delta_kpkc.hpp:205-243 | copying to the next depth and filtering by the new vertex keeps used partitions' candidates, only removes candidates elsewhere, and touches no other depth; a candidate of an unused partition survives exactly when it was a candidate at the current depth, is adjacent to the new vertex in the full graph, and no delta edge to it ranks below the anchor |
| DeltaKpkcSearch.CompleteFromSeed | include/tyr/datalog/delta_kpkc.hpp:259-301 | every emitted solution has k vertices and extends the current partial solution; the partial solution, the used partitions and the lower depths are restored afterwards; from a sound state (the partial solution a clique over distinct partitions, all marked used, every candidate adjacent to all of it) every solution is a clique of the full graph with no two vertices in one partition |
| DeltaKpkcSearch.ExtendBy | include/tyr/datalog/delta_kpkc.hpp:274-300 | one candidate of the best partition: its solutions have k vertices and extend the partial solution, they are cliques over distinct partitions from a sound state, and afterwards only that candidate bit is gone |
| DeltaKpkcSearch.SearchDeeper | include/tyr/datalog/delta_kpkc.hpp:285-297 | the recursive branch releases the taken partition again, leaves the partial solution and the depths up to the current one as they were, and emits cliques when the next depth is sound |
| DeltaKpkcSearch.ExtendClique | include/tyr/datalog/delta_kpkc.hpp:276-279 | a candidate of an unused partition extends a sound partial solution to a clique whose vertices lie in distinct partitions, all marked used once p is |
| DeltaKpkcSearch.AdvanceSound | include/tyr/datalog/delta_kpkc.hpp:215-243 | after the update for the new vertex the next depth is sound again: every surviving candidate is adjacent to the whole extended partial solution |
| DeltaKpkcSearch.AdvanceFits | include/tyr/datalog/delta_kpkc.hpp:221-233 | under the offset layout, bit b of partition q names vertex offset(q) + b, so a candidate kept by the adjacency test is adjacent to the new vertex |
| DeltaKpkcSearch.SeedSound | include/tyr/datalog/delta_kpkc.hpp:148-179 | seeding from a delta edge gives a sound state: the anchor is a full edge across two partitions and every depth-0 candidate is adjacent to both ends |
| DeltaKpkcSearch.AllocatedOwnPartition | include/tyr/datalog/delta_kpkc.hpp:221 | when vertices of lower partitions have lower indices, as the update assumes, the partitions are disjoint and `vertex_to_partition` maps every listed vertex to its own partition |
| DeltaKpkcSearch.NextDeltaInFull | src/datalog/delta_kpkc.cpp:153-158 | after `set_next_assignment_sets` every delta edge is an edge of the new full graph |
| DeltaKpkcSearch.CrossEdgesKPartite | src/datalog/delta_kpkc.cpp:129-140 | when each consistency edge joins two partitions, the full graph has no edge inside a partition |
| DeltaKpkcSearch.VisitAnchor | include/tyr/datalog/delta_kpkc.hpp:98-115 | for one delta edge (i, j): for k = 2 exactly the pair is emitted; otherwise every emitted solution has k vertices and starts with i, j; under the layout conditions every solution is a clique of the full graph over distinct partitions |
| DeltaKpkcSearch.ScanRow | include/tyr/datalog/delta_kpkc.hpp:92-116 | row i of the delta graph emits only solutions anchored at a delta edge (i, j) with j > i, each a clique of the full graph over distinct partitions under the layout conditions; for k = 2 exactly those pairs in column order |
| DeltaKpkcSearch.ForEachNewKClique | include/tyr/datalog/delta_kpkc.hpp:88-118 | for k = 2 the callback receives exactly the delta edges; otherwise every solution has k vertices and starts with a delta edge (i, j), i < j; when the partitions follow the offset layout, map their vertices to themselves, have no full edge inside one, and every delta edge is a full edge, every solution is a k-clique of the full graph with no two vertices in one partition |
| DeltaKpkcSearch.DeltaPairsExact | include/tyr/datalog/delta_kpkc.hpp:88-118 | for k = 2 every delta edge (i, j), i < j, is emitted exactly once, in increasing rank |
| DeltaKpkc2.LessIsStrictTotal | include/tyr/datalog/delta_kpkc2.hpp:106-114 | the lexicographic `<` on anchors is irreflexive, transitive and total on distinct anchors |
| DeltaKpkc2.ProperPrefixLess | include/tyr/datalog/delta_kpkc2.hpp:110-113 | a proper prefix of an anchor is smaller than it |
| DeltaKpkc2.IncludesIsSubset | include/tyr/datalog/delta_kpkc2.hpp:120-125 | for strictly sorted anchors, `includes(lhs, rhs)` holds iff every vertex of rhs is a vertex of lhs |
| DeltaKpkc2.Pivot | include/tyr/datalog/delta_kpkc2.hpp:127-132 | the pivot is a vertex of the anchor, its least one when the anchor is sorted |
| DeltaKpkc2.Clear | include/tyr/datalog/delta_kpkc2.hpp:140-145 | a cleared anchor set is empty with offsets [0] |
| DeltaKpkc2.Insert | include/tyr/datalog/delta_kpkc2.hpp:147-155 | insertion adds one anchor, stored sorted, and leaves the earlier anchors as they were |
| DeltaKpkc2.SortOrder | include/tyr/datalog/delta_kpkc2.hpp:164-169 | `sort(out_order)` yields a permutation of 0 .. size-1 listing the anchors in non-decreasing `<` order |
| DeltaKpkc2.InsertOrder | include/tyr/datalog/delta_kpkc2.hpp:164-169 | inserting an index into an order sorted by anchor keeps it sorted and adds exactly that index |
| DeltaKpkc2Search.EdgeListExact | include/tyr/datalog/delta_kpkc2.hpp:236-298 | the edge iterator yields exactly the pairs i < j with bit j set in row i, each once, in increasing rank |
| DeltaKpkc2Search.ContainsEdgeIffListed | include/tyr/datalog/delta_kpkc2.hpp:193 | for two distinct vertices, `contains(Edge(u, v))` agrees with the edge iterator |
| DeltaKpkc2Search.MinDeltaRank | include/tyr/datalog/delta_kpkc2.hpp:431-478 | the rank pushed for a new vertex is at most the previous one, at most the rank of each delta edge from the partial solution to it, and equal to one of them |
| DeltaKpkc2Search.CompleteFromSeed2 | include/tyr/datalog/delta_kpkc2.hpp:431-478 | every emitted solution has k vertices and extends the partial solution; the partial solution, the rank stack, the used partitions and the candidates up to this depth are restored |
| DeltaKpkc2Search.ForEachKClique | include/tyr/datalog/delta_kpkc2.hpp:412-429 | a k-vertex anchor is emitted first; k = 0 does nothing else; a failed seed ends the call; all other solutions have k vertices and extend the seeded partial solution |
| DeltaKpkcGraph.PartOf | include/tyr/datalog/delta_kpkc_graph.hpp:60-88 | the partition found for a vertex is the block whose offset range holds it, or the partition count past the last block |
| DeltaKpkcGraph.PartitionOfBlock | include/tyr/datalog/delta_kpkc_graph.hpp:60-88 | the b-th vertex of block q is located in partition q |
| DeltaKpkcGraph.Reset | include/tyr/datalog/delta_kpkc_graph.hpp:129-134 | `reset` clears the vertices, the vertex blocks and every adjacency block |
| DeltaKpkcGraph.ResetVertices | include/tyr/datalog/delta_kpkc_graph.hpp:117-121 | `reset_vertices` clears the vertices and vertex blocks only; adjacency is unchanged |
| DeltaKpkcGraph.ResetAdjacencyRow | include/tyr/datalog/delta_kpkc_graph.hpp:123-127 | `reset_adjacency_row(v)` clears every block of row v and changes no other row |
| DeltaKpkcGraph.ForEachVertexExact | include/tyr/datalog/delta_kpkc_graph.hpp:136-153 | `for_each_vertex` visits exactly the vertices whose block bit is set, in increasing order |
| DeltaKpkcGraph.ForEachEdgeExact | include/tyr/datalog/delta_kpkc_graph.hpp:155-194 | `for_each_edge` emits exactly the edges from a set vertex of partition p to a set vertex of a later partition whose adjacency bit is set |
| BitsetViews.Whole | include/tyr/grounder/kpkc.hpp:41 | the whole-bitset view starts at 0 and is as wide as the bitset |
| BitsetViews.Range | include/tyr/grounder/kpkc.hpp:43 | a view over [begin, end) with begin <= end has end - begin bits |
| BitsetViews.Nested | include/tyr/grounder/kpkc.hpp:45-54 | a nested view lies inside its parent, starts at the parent's begin plus the relative begin and has relative end - relative begin bits |
| BitsetViews.Slice | include/tyr/grounder/kpkc.hpp:56-60 | slice i of width d has d bits and starts d * i after the view |
| BitsetViews.Set | include/tyr/grounder/kpkc.hpp:68-72 | `set(bit)` sets the addressed bit of the shared bitset and changes no other bit |
| BitsetViews.SetThroughView | include/tyr/grounder/kpkc.hpp:62-72 | after setting a bit through one view, another view reads a bit as set iff it was set or both address the same underlying position |
| BitsetViews.SliceBits | include/tyr/grounder/kpkc.hpp:56-60 | bit b of slice i is bit i * d + b of the parent, so two bits of equal-width slices coincide iff same slice and same bit |
| BitsetViews.SetRowIndependent | include/tyr/grounder/kpkc.hpp:56-72 | writing one row of a matrix stored row by row leaves what every other row reads unchanged |
| BitsetViews.NewDenseGraph | include/tyr/grounder/kpkc.hpp:111-118 | the constructor allocates V * V cleared adjacency bits, k zeroed partition entries and k + 1 zeroed offsets |
| BitsetViews.AdjacencyRow | include/tyr/grounder/kpkc.hpp:105-120 | row u of the adjacency matrix, as a slice of width V, stays inside the matrix and reads bit u * V + v |
| VariableDependency.UpperIndexRange | include/tyr/formalism/datalog/variable_dependency_graph.hpp:38-51 | for 0 <= i < j < k the upper-triangular index lies in [0, k(k-1)/2), the allocated cells |
| VariableDependency.UpperIndexRow | include/tyr/formalism/datalog/variable_dependency_graph.hpp:40-43 | the index is the number of cells of rows 0 .. i-1 plus the offset j - i - 1 within row i |
| VariableDependency.UpperIndexInjective | include/tyr/formalism/datalog/variable_dependency_graph.hpp:38-44 | two pairs i < j get the same cell iff they are the same pair |
| VariableDependency.UpperIndexOnto | include/tyr/formalism/datalog/variable_dependency_graph.hpp:38-51 | every allocated cell belongs to some pair x < y < k |
| VariableDependency.UpperIndexOrder | include/tyr/formalism/datalog/variable_dependency_graph.hpp:38-44 | cells follow row-major order: an earlier pair has a smaller index |
| VariableDependency.UpperIndexConsecutive | include/tyr/formalism/datalog/variable_dependency_graph.hpp:38-44 | consecutive pairs, along a row and across a row end, get consecutive indices |
| VariableDependency.CellCountClosed | include/tyr/formalism/datalog/variable_dependency_graph.hpp:49-51 | the cells of the rows add up to k(k-1)/2, the size the constructor allocates |
| VariableDependency.NewMatrix | include/tyr/formalism/datalog/variable_dependency_graph.hpp:49-60 | the constructor makes k(k-1)/2 empty cells |
| VariableDependency.Append | src/formalism/datalog/variable_dependency_graph.cpp:44 | `push_back` extends the list of its kind by the label and leaves the other lists alone |
| VariableDependency.SortedParams | src/formalism/datalog/variable_dependency_graph.cpp:30-32 | the collected parameters, as a vector, are sorted and distinct and are exactly the parameters of the literal |
| VariableDependency.InsertCell | src/formalism/datalog/variable_dependency_graph.cpp:28-47 | inserting a literal appends its label to the cell of every pair a < b of its parameters, only there and only to the list of its kind |
| VariableDependency.InsertFewParams | src/formalism/datalog/variable_dependency_graph.cpp:34-46 | a literal or constraint with fewer than two parameters changes no cell |
| VariableDependency.InsertAllCell | src/formalism/datalog/variable_dependency_graph.cpp:73-80 | inserting a list of dependencies appends to cell (a, b) the labels of those that mention both a and b, in order |
| VariableDependency.Matching | src/formalism/datalog/variable_dependency_graph.cpp:73-80 | the labels collected for a cell are exactly those of the dependencies mentioning both of its parameters |
| VariableDependency.Dedup | src/formalism/datalog/variable_dependency_graph.cpp:82-87 | sort followed by `unique`/`erase` leaves each list strictly sorted with the same members |
| VariableDependency.BuildCells | src/formalism/datalog/variable_dependency_graph.cpp:71-99 | after construction the cell of a < b lists, per kind, exactly the labels of the dependencies of that kind mentioning both a and b, each once, in increasing order |
| VariableDomains.EmptyDomains | include/tyr/analysis/variable_domains.hpp:49-55 | every predicate gets one empty domain per parameter |
| VariableDomains.InsertAtomsMembers | include/tyr/analysis/variable_domains.hpp:57-71 | after inserting the atoms, an object is in a position's domain iff it was there before or some atom of that predicate has it at that position |
| VariableDomains.InitialDomainsExact | include/tyr/analysis/variable_domains.hpp:49-71 | step 1 gives every predicate position exactly the objects that appear there in its atoms |
| VariableDomains.RestrictTermsMembers | include/tyr/analysis/variable_domains.hpp:74-102 | after one static atom, a parameter keeps an object iff it had it and the object is in the static domain of every position where that parameter occurs in the atom; object terms restrict nothing |
| VariableDomains.RestrictBodyMembers | include/tyr/analysis/variable_domains.hpp:111-114 | after a whole static body, a parameter keeps an object iff it had it and every static literal's atom allows it, whatever the literal's polarity |
| VariableDomains.RuleDomainsExact | include/tyr/analysis/variable_domains.hpp:106-117 | step 2: an object is in a rule parameter's domain iff it is a program object and fits every static-body position of that parameter, so the domains only shrink from the universe |
| VariableDomains.LiftTermsMembers | include/tyr/analysis/variable_domains.hpp:122-150 | lifting one atom adds a parameter's domain to each fluent position where that parameter occurs and changes nothing else |
| VariableDomains.LiftAtomsMembers | include/tyr/analysis/variable_domains.hpp:156-159 | lifting a list of atoms adds to a position exactly the domains of the parameters some atom carries there |
| VariableDomains.LiftRulesMembers | include/tyr/analysis/variable_domains.hpp:152-162 | step 3: a fluent position gains an object iff some rule's fluent body or head carries there a parameter whose domain holds it |
| VariableDomains.Compute | include/tyr/analysis/variable_domains.hpp:38-169 | the static and the fluent result are shaped by the predicates' arities |
| VariableDomains.StaticDomainsExact | include/tyr/analysis/variable_domains.hpp:49-63 | the static result holds at each position exactly the objects found there in the static atoms; rules do not change it |
| VariableDomains.FluentDomainsExact | include/tyr/analysis/variable_domains.hpp:38-169 | the fluent result holds an object at a position iff a fluent atom has it there or a rule carries there a parameter whose statically restricted domain holds it; the fluent domains only grow from step 1 |
| VariableDomains.ObjectTermsLiftNothing | include/tyr/analysis/variable_domains.hpp:134 | an atom whose terms are all objects leaves its predicate's domains unchanged |
| Listeners.Occurrences | include/tyr/analysis/listeners.hpp:47-50 | a rule is pushed once per fluent body literal on the predicate, at most once per literal, and at least once iff some literal is on the predicate |
| Listeners.ComputeListListeners | include/tyr/analysis/listeners.hpp:37-57 | the header version yields one listener map per stratum, in stratum order |
| Listeners.AppendLiteralsLists | include/tyr/analysis/listeners.hpp:47-50 | pushing a rule's literals appends the rule index to a predicate's list once per literal on it and leaves other lists alone |
| Listeners.ListStratumExact | include/tyr/analysis/listeners.hpp:43-53 | a predicate has a list iff some rule of the stratum has a fluent literal on it, of either polarity; the list names exactly those rules, and each rule index occurs in it once per fluent literal on the predicate in the rules with that index |
| Listeners.ComputeSetListeners | src/analysis/listeners.cpp:31-50 | the source-file version yields one listener map per stratum, in stratum order |
| Listeners.InsertPositiveSets | src/analysis/listeners.cpp:40-42 | inserting a rule adds its index under exactly the predicates of its positive fluent literals |
| Listeners.SetStratumExact | src/analysis/listeners.cpp:37-44 | a rule is registered under a predicate iff it has a positive fluent literal on it; negative literals register nothing |
| Listeners.SetWithinList | src/analysis/listeners.cpp:39-42 | every rule the set version registers under a predicate is also in the header version's list for it |
| Cartesian.Cross | include/tyr/common/itertools.hpp:58-80 | extending every tuple by every element of the last range gives |tuples| * |last| tuples |
| Cartesian.CrossAt | include/tyr/common/itertools.hpp:66-79 | the last range varies fastest: tuple x extended by element y sits at position x * |last| + y |
| Cartesian.ProductAt | include/tyr/common/itertools.hpp:61-62 | the tuple an index reading denotes is emitted at the reading's mixed-radix rank |
| Cartesian.RankOrder | include/tyr/common/itertools.hpp:66-79 | a lexicographically smaller reading is emitted earlier |
| Cartesian.RankInjective | include/tyr/common/itertools.hpp:66-79 | distinct readings are emitted at distinct positions, so no reading is emitted twice |
| Cartesian.RankOnto | include/tyr/common/itertools.hpp:58-80 | every position of the enumeration is reached by some valid reading |
| Cartesian.AdvanceRank | include/tyr/common/itertools.hpp:67-79 | one odometer step adds one to the rank of the readings, or signals the end exactly when the reading was the last one |
| Cartesian.ForElementInCartesianSet | include/tyr/common/itertools.hpp:37-81 | the callback receives exactly the reference enumeration of the product, in order |
| Cartesian.ProductExact | include/tyr/common/itertools.hpp:44-51 | no ranges give the single empty tuple; the product is empty iff some range is empty; otherwise it lists every reading's tuple once, in lexicographic order |
| SetOps.IntersectInPlace | include/tyr/common/unordered_set.hpp:27-37 | the target keeps exactly the elements the other set also holds |
| SetOps.UnionInPlace | include/tyr/common/unordered_set.hpp:39-43 | the target afterwards holds exactly the elements of either set |
| DatalogApplicability.EvaluateTerm | include/tyr/datalog/applicability.hpp:102-115 | a ground function term throws iff it is auxiliary, and otherwise is NaN exactly when the fact set has no value for it |
| DatalogApplicability.EvaluateFailsIffAuxiliary | include/tyr/datalog/applicability.hpp:77-133 | ground evaluation throws exactly when the expression mentions an auxiliary function term; operators pass the exception on and nothing else throws |
| DatalogApplicability.FoldFailsIffAuxiliary | include/tyr/datalog/applicability.hpp:91-100 | the fold over a multi-operator's later children throws iff one of those children mentions an auxiliary term |
| DatalogApplicability.LiteralsApplicableAll | include/tyr/datalog/applicability.hpp:234-238 | a ground literal list holds iff each of its literals holds; the empty list holds |
| DatalogApplicability.ConstraintsApplicableAll | include/tyr/datalog/applicability.hpp:240-245 | when no constraint mentions an auxiliary term, the constraint list evaluates without exception and holds iff every constraint does |
| DatalogApplicability.ConditionApplicableParts | include/tyr/datalog/applicability.hpp:249-255 | a ground condition holds iff all its static and fluent literals and its constraints hold; a failing static literal short-circuits, so no constraint exception escapes |
| DatalogApplicability.ValidLiteralMeaning | include/tyr/datalog/applicability.hpp:269-281 | a binding is valid for a literal iff the grounded atom's truth matches the polarity, an atom unknown to the program counting as false; for a known atom this is the ground literal's applicability |
| DatalogApplicability.ValidLiteralsAll | include/tyr/datalog/applicability.hpp:283-297 | a binding is valid for a literal list iff it is valid for each literal |
| DatalogApplicability.EvaluateLiftedTerm | include/tyr/datalog/applicability.hpp:174-199 | a lifted function term throws iff it is auxiliary, and is NaN when its grounding under the binding is unknown to the program |
| DatalogApplicability.ValidConditionParts | include/tyr/datalog/applicability.hpp:315-323 | a binding is valid for a condition iff it is valid for every static and fluent literal and the constraints hold |
| Arity.TermsArityCountsPositions | include/tyr/formalism/arity.hpp:115-137 | the arity of an atom counts its parameter positions, repeats included, and never exceeds the number of terms |
| Arity.ExprArityIsMaxLeaf | include/tyr/formalism/arity.hpp:48-113 | the arity of an expression bounds that of every function term in it and, unless 0, equals that of one of them |
| Arity.FoldArityIsMaxLeaf | include/tyr/formalism/arity.hpp:62-71 | the fold over a multi-operator's children bounds every child's function terms and is reached by one of them or by the start value |
| PlanningApplicability.AsWrittenAgreesOnProducts | include/tyr/planning/applicability.hpp:87-151 | the as-written evaluation and the operator-respecting one agree on every expression whose multi-operators all multiply |
| PlanningApplicability.FoldAgrees | include/tyr/planning/applicability.hpp:105-115 | on a multiplying multi-operator, the as-written fold and the operator's own fold give the same value |
| PlanningApplicability.MultiAddAsWritten | include/tyr/planning/applicability.hpp:110-114 | the sum 2 + 3 written as a multi-operator evaluates to 6 as written, and to 5 with the operator's own fold |
| PlanningApplicability.FactsAll | include/tyr/planning/applicability.hpp:199-209 | an FDR fact list holds iff every fact's variable has the fact's value in the state |
| PlanningApplicability.StaticLiteralsAll | include/tyr/planning/applicability.hpp:181-197 | a static literal list holds iff every literal's atom is in the task exactly when the literal is positive |
| PlanningApplicability.DerivedLiteralsAll | include/tyr/planning/applicability.hpp:187-197 | a derived literal list holds iff every literal's atom is in the state exactly when the literal is positive |
| PlanningApplicability.ConstraintsAll | include/tyr/planning/applicability.hpp:211-215 | a numeric constraint list holds iff every constraint does |
| PlanningApplicability.ConditionApplicableExact | include/tyr/planning/applicability.hpp:273-280 | an FDR condition holds iff its static literals agree with the task, its FDR facts and derived literals with the state, and every numeric constraint holds |
| PlanningApplicability.StaticallyApplicable | include/tyr/planning/applicability.hpp:335-339 | static applicability holds iff every static literal agrees with the task |
| PlanningApplicability.StaticallyApplicableNecessary | include/tyr/planning/applicability.hpp:335-339 | an applicable condition is statically applicable, and a statically inapplicable one is inapplicable in every state of the same task |
| PlanningApplicability.EffectApplicable | include/tyr/planning/applicability.hpp:217-240 | a fluent numeric effect is applicable iff its family is compatible with the one recorded for its term, its term is defined unless it assigns, and its expression is defined |
| PlanningApplicability.EffectKeepsFamilies | include/tyr/planning/applicability.hpp:222-229 | checking an effect keeps every record of another term, pads new terms with NONE, and records the effect's family on its own term once it was compatible |
| PlanningApplicability.ShrinkingFamiliesAsWritten | include/tyr/planning/applicability.hpp:223 | with the resize as written, an increase and a later assignment on term 5 both pass when an assignment on term 2 comes between them; with a growing family list the conflict is caught |
| PlanningApplicability.ApplicableIfFires | include/tyr/planning/applicability.hpp:169-175 | a conditional effect is fine iff its effect is applicable or its condition fails, and the effect's families are recorded either way |
| PlanningApplicability.ActionApplicable | include/tyr/planning/applicability.hpp:306-313 | an action whose condition fails is inapplicable and records no family |
| PlanningApplicability.ActionApplicableMeaning | include/tyr/planning/applicability.hpp:306-313 | an action is applicable iff its condition holds and each conditional effect is applicable-if-fires against the families its predecessors recorded |
| PlanningApplicability.AllIfFiresMeaning | include/tyr/planning/applicability.hpp:310-312 | the run over the conditional effects from any position succeeds iff each later effect is applicable-if-fires against the families recorded before it |
| ExpressionProperties.Insert | include/tyr/formalism/datalog/expression_properties.hpp:62-69 | inserting an index yields exactly the old elements and the index |
| ExpressionProperties.CollectExact | include/tyr/formalism/datalog/expression_properties.hpp:57-107 | collecting an expression adds exactly the indices of its function terms of the requested kind |
| ExpressionProperties.CollectAllExact | include/tyr/formalism/datalog/expression_properties.hpp:90-95 | collecting a multi-operator's children from a position adds exactly the requested-kind indices of those children |
| ExpressionProperties.CollectSortedExact | include/tyr/formalism/datalog/expression_properties.hpp:109-117 | the returned list is strictly increasing and holds exactly the indices of the constraint's function terms of the requested kind |
| NumericEffectOperators.Apply | include/tyr/formalism/planning/ground_numeric_effect_operator_utils.hpp:30-58 | assignment yields the right-hand side; increase and decrease are undone by subtracting and adding the right-hand side back, scale-down by multiplying it back; scale-up is undone by dividing by a non-zero right-hand side and gives 0 for a zero one; increase and decrease move the value up or down exactly as the right-hand side is positive |
| NumericEffectOperators.ApplyInverse | include/tyr/formalism/planning/ground_numeric_effect_operator_utils.hpp:36-58 | decrease undoes increase and scale-down undoes scale-up by the same non-zero value, and back |
| NumericEffectOperators.AssignIgnoresOld | include/tyr/formalism/planning/ground_numeric_effect_operator_utils.hpp:30-34 | assignment gives the same result whatever the old value |
| NumericEffectOperators.IncreaseComposes | include/tyr/formalism/planning/ground_numeric_effect_operator_utils.hpp:36-40 | two increases by a and b equal one increase by a + b |
| Generator.GroundAtomLoop | include/tyr/grounder/generator.hpp:36-63 | the loop keeps the predicate and builds one object per term, the bound object for a parameter and the object itself otherwise, agreeing with substitution |
| Generator.GroundAtomRespects | include/tyr/grounder/generator.hpp:42-63 | grounding keeps the atom's arity, and bindings that agree on the atom's parameters give the same ground atom |
| Generator.Dispatch | include/tyr/grounder/generator.hpp:114-131 | nothing is grounded when the nullary conditions fail; otherwise the nullary, unary or general procedure runs exactly for body arity 0, 1 or at least 2 |
| RuleWorkspace.CreateFluentRule | src/datalog/workspaces/rule.cpp:65-88 | the fluent condition (the rule's variables and fluent literals) and then the rule over it with the same variables and head are found in the repository afterwards, and the returned index is the rule's |
| RuleWorkspace.FluentRuleIdempotent | src/datalog/workspaces/rule.cpp:65-88 | building the same fluent rule again returns the same index, reports nothing new and changes no repository |
| RuleWorkspace.FluentRuleNothingElse | src/datalog/workspaces/rule.cpp:80-87 | building the fluent rule leaves every other lookup of conditions and rules as it was |
| RuleWorkspace.Clear | src/datalog/workspaces/rule.cpp:50-54 | clearing empties the local repository and the heads, keeps the parent's contents visible, and leaves the binding and the statistics alone |
| ProgramNames.ApplicabilityName | src/planning/programs/common.cpp:27-30 | an applicability name starts with "@" |
| ProgramNames.TriggeredName | src/planning/programs/common.cpp:32-35 | a trigger name starts with its action's applicability name followed by "_" |
| ProgramNames.NumeralHasNoUnderscore | src/planning/programs/common.cpp:29 | a decimal index contains no underscore |
| ProgramNames.AfterLastOf | src/planning/programs/common.cpp:29 | in "name_digits" the digits are exactly the text after the last underscore |
| ProgramNames.ApplicabilityNameInjective | src/planning/programs/common.cpp:27-41 | two applicability names are equal only for the same name and index, so distinct actions (or axioms) get distinct predicates, even when names contain underscores |
| ProgramNames.ApplicabilityPredicate | src/planning/programs/common.hpp:46-58 | the applicability predicate with the action's arity is found in the destination afterwards under the returned index |
| ProgramNames.Parameters | src/planning/programs/common.hpp:70-71 | the atom's terms are the parameters 0 to arity - 1, in order |
| ProgramNames.ApplicabilityAtom | src/planning/programs/common.hpp:60-75 | the atom of the applicability predicate over P0, ..., P(arity - 1) is found in the destination under the returned index |
| ProgramNames.ApplicabilityAtomShape | src/planning/programs/common.hpp:70-71 | substituting a binding of the action's arity into the applicability atom gives the binding itself |
| ProgramNames.ApplicabilityAtomIdempotent | src/planning/programs/common.hpp:60-75 | building the applicability atom a second time returns the same index and changes no repository |
| TaskStates.CreateAtomsSlot | include/tyr/planning/task_mixin.hpp:73-83 | the buffer lists exactly the set bits, strictly increasing |
| TaskStates.SetBits | include/tyr/planning/task_mixin.hpp:78-80 | the set bits in strictly increasing order, all below the bitset's size |
| TaskStates.Resize | include/tyr/planning/task_mixin.hpp:53 | resizing with clear bits keeps every bit below the new size |
| TaskStates.FillAtomsMeaning | include/tyr/planning/task_mixin.hpp:41-57 | filling from an empty list leaves the bitset alone; otherwise it sizes it to the largest listed index plus one and sets exactly the listed bits besides the kept ones |
| TaskStates.StrictlySortedUnique | include/tyr/planning/task_mixin.hpp:52 | two strictly increasing lists with the same elements are equal |
| TaskStates.PackUnpack | include/tyr/planning/task_mixin.hpp:41-83 | unpacking a packed bitset gives back its set bits, and packing an unpacked strictly increasing list gives the list back |
| TaskStates.StaticAtomsBitset | include/tyr/planning/task_mixin.hpp:121-127 | the static bitset sets exactly the task's static atoms and is no longer than the largest of them plus one |
| TaskStates.LastValue | include/tyr/planning/task_mixin.hpp:129-135 | a static numeric variable is undefined exactly when no value is given for it |
| TaskStates.StaticNumericVariables | include/tyr/planning/task_mixin.hpp:129-135 | every static numeric variable holds the last value given for it, or NaN, and the vector is as long as the largest given index plus one |
| TaskStates.PackSame | include/tyr/planning/task_mixin.hpp:186-190 | two states pack the same iff they set the same atoms and have the same numeric variables |
| TaskStates.IndexOf | include/tyr/planning/task_mixin.hpp:190 | a packed state is found iff it is in the table, and at a position that holds it |
| TaskStates.RegisterState | include/tyr/planning/task_mixin.hpp:182-191 | registering returns a position holding the packed state; a known state leaves the table alone and a new one is appended under the number of states so far |
| TaskStates.RegisterThenGet | include/tyr/planning/task_mixin.hpp:161-191 | a registered state is read back with the same atoms and numeric variables, and two states get the same index iff they pack the same |
| Span.IteratorsCoverSpan | include/tyr/common/span.hpp:47-172 | `end - begin` is the size; the span is empty iff its size is 0 iff begin meets end; the i-th element is the one i steps from begin, by indexing the span or the iterator |
| Span.MovesInvert | include/tyr/common/span.hpp:87-145 | moving forward and back by n returns to the same iterator; `++` and `--` move by one and undo each other; post-increment returns the old iterator; the distance after moving by n is n |
| Span.ComparisonsFollowDistance | include/tyr/common/span.hpp:145-167 | the comparisons order iterators by position, agree with their distance, and exactly one of less, equal, greater holds |
| EventHandlers.Handle | include/tyr/planning/algorithms/gbfs_lazy/event_handlers/interface.hpp:101-190 | expansions, generations and prunings each bump their own counter; starting a search resets the statistics and stamps the start; only start and end touch the clocks; the concrete callback runs iff the handler is not quiet |
| EventHandlers.RunSnoc | include/tyr/planning/algorithms/gbfs_lazy/event_handlers/interface.hpp:101-190 | a run extended by one event is the run followed by that event's handler |
| EventHandlers.RunCounts | include/tyr/planning/algorithms/gbfs_lazy/event_handlers/interface.hpp:103-149 | after a run that begins with the search's start, the counters are the numbers of expansions, generations and prunings in it |
| EventHandlers.QuietOnlySilences | include/tyr/planning/algorithms/gbfs_lazy/event_handlers/interface.hpp:101-190 | a quiet and a verbose handler keep the same statistics over any run; the quiet one records no callback and the verbose one every event |
| Brfs.GetOrCreate | exe/brfs.cpp:41-50 | the node table is padded with default nodes until the state has an entry; existing entries are kept |
| Brfs.GrowKeeps | exe/brfs.cpp:41-50 | padding the table keeps its shape, its open nodes and the search frontier |
| Brfs.OpenKeeps | exe/brfs.cpp:132-137 | opening a new successor with the expanded state as parent and g + 1 keeps the table's shape and adds exactly that state to the open ones |
| Brfs.EnqueueKeeps | exe/brfs.cpp:135-149 | enqueueing a newly opened non-goal successor keeps the frontier |
| Brfs.ExpandState | exe/brfs.cpp:123-150 | expanding a state either generates all its successors, opening each, or stops at a goal successor whose g value is a plan length of at least 1 |
| Brfs.DistinctBelow | exe/brfs.cpp:105-153 | a list of distinct state indices below the bound is no longer than the bound |
| Brfs.Without | exe/brfs.cpp:105-153 | removing a value from a distinct list removes exactly it |
| Brfs.BreadthFirstSearch | exe/brfs.cpp:86-156 | the search expands each state at most once; a reported plan leads to a goal; without one, the expanded states are exactly the open ones, closed under successors, no open state other than the initial one is a goal, and the generated count is the total number of successors expanded |
| Brfs.PathTo | exe/brfs.cpp:135-137 | following parent links from an open state gives a path of successor steps from the initial state with g + 1 states |
| Brfs.PlanIsPath | exe/brfs.cpp:139-146 | a reported plan length is the length of a successor path from the initial state to a goal state |
| GbfsLazy.GetOrCreateNode | src/planning/algorithms/gbfs_lazy.cpp:46-55 | the node table is padded with default nodes until the index is in range, existing nodes are kept, and the node at the index is returned |
| GbfsLazy.GetOrCreateNodeIdempotent | src/planning/algorithms/gbfs_lazy.cpp:46-55 | looking a node up a second time changes nothing, and every other index reads its old node or a default one |
| GbfsLazy.KeyOrdersStrict | src/planning/algorithms/gbfs_lazy.cpp:61-89 | both queue orders are strict orders that ignore the state, and two entries tie exactly when their keys agree |
| GbfsLazy.ExhaustivePrefersH | src/planning/algorithms/gbfs_lazy.cpp:87 | the exhaustive queue prefers the smaller heuristic value whatever the costs, then the smaller cost |
| Formatter.VertexLines | src/datalog/formatter.cpp:65-66 | one line per vertex, in order |
| Formatter.EdgeLines | src/datalog/formatter.cpp:67-69 | one line per edge, in order |
| Formatter.DigitRunOf | src/datalog/formatter.cpp:38 | a numeral followed by a non-digit is read back as the numeral's digits |
| Formatter.VertexAssignmentRoundTrip | src/datalog/formatter.cpp:36-52 | "[index/object]" reads back as the vertex assignment, and a vertex prints as the assignment of its parameter and object |
| Formatter.VertexAssignmentTextInjective | src/datalog/formatter.cpp:36-40 | different vertex assignments print differently |
| Formatter.SplitJoin | src/datalog/formatter.cpp:64-69 | splitting lines joined by newlines gives the lines back |
| Formatter.LinesNoNewline | src/datalog/formatter.cpp:65-68 | no vertex or edge line holds a newline |
| Formatter.Section | src/datalog/formatter.cpp:64-69 | a section prints as its joined lines, and an empty section as one empty line |
| Formatter.GraphTextJoin | src/datalog/formatter.cpp:60-72 | the graph dump is its lines joined by newlines |
| Formatter.GraphTextLines | src/datalog/formatter.cpp:60-72 | the dump's lines are the header, an empty line, one line per vertex, an empty line, one line per edge, and the closing brace |
| Sorting.Sort | src/formalism/datalog/variable_dependency_graph.cpp:84 | `std::sort` yields a sorted permutation of its input |
| Sorting.Unique | src/formalism/datalog/variable_dependency_graph.cpp:85 | on a sorted list, `unique` followed by `erase` keeps the same members, each once, strictly increasing, and keeps the first element |

## Left out

- **Output and clocks.** Printing is left out: the domain dump in variable_domains.hpp, the g-layer and plan messages of BrFS, and argument parsing. Clock readings are parameters of the events that take them.
- **Unfinished stubs.**
  - `compute_variable_list_per_function` and `compute_variable_lists_per_rule` have empty bodies (include/tyr/analysis/variable_domains.hpp:171-173).
  - So do `ground(Literal)`, `ground(ConjunctiveCondition)`, `ground(Rule)`, `ground_nullary_case` and `ground_unary_case` (include/tyr/grounder/generator.hpp:66-98).
  - `ground_general_case` only prints cliques. `Generator.Dispatch` models which of the three runs.
  - `find_solution` has an empty body (src/planning/algorithms/gbfs_lazy.cpp:96-99).
- Generator.GroundAtomLoop: returns the atom it builds; `ground(Atom)` builds it in the builder but has no return statement.
- **Code outside this model, given as parameters.**
  - `formalism::apply` for arithmetic and comparison operators is the `Semantics` parameter.
  - `Op::family` and `is_compatible_effect_family` are the `FamilyRules` parameter.
  - `nullary_conditions_hold` is a boolean parameter.
  - The successor generator and the goal test of BrFS are parameters.
  - `seed_from_anchor` and `update_compatible_adjacent_vertices_at_next_depth` of the second clique enumerator are parameters, because their definitions in delta_kpkc2.cpp are not part of this model. The update is taken to write only the next depth's candidate row.
  - The partition choice and the addition count of the second enumerator are those of the first.
- **`canonicalize`** is the identity: its definition is not part of this model, and every builder it is applied to is already in canonical form here.
- **Hash-consing storage.** Storage in valla slots is modelled by storing the sequences themselves; a slot stands for the sequence it holds. Packed float encoding is not modelled.
- **Repository layout.** Repository containers are sequences of entries, not hash tables; lookup is a linear search with the same result.
- **Floats.**
  - C++ floats and Python floats are exact reals, and NaN is `None`. Rounding, infinities in arithmetic and NaN comparisons are not modelled.
  - The skew value `inf` of the summaries reader is a distinct `Inf` value.
- GbfsLazy.KeyOrdersStrict: keys hold finite values or +infinity only, so the orders are stated without NaN, under which `std::tuple` comparison is not a strict order.
- NumericEffectOperators.Apply: scaling down requires a non-zero right-hand side, because division by zero has no value in a field. The source divides anyway and gets an infinity or NaN.
- Brfs.BreadthFirstSearch: state indices are below a bound that covers every registered state, so the table and the loop are finite. The registration of states by the successor generator is not modelled.
- DatalogSummaries: the round trips are stated for statistic lines rendered with single spaces, because the code that prints these lines is not part of this model. The reader itself accepts any amount of whitespace where the patterns do.
- **Unused overloads.** `is_applicable` for `GroundConditionalEffect` calls a condition overload with a family list that the header never declares, so it cannot be instantiated (include/tyr/planning/applicability.hpp:295-302); it is not modelled. `is_applicable` and `is_statically_applicable` for `GroundAxiom` and `GroundRule` apply the condition checks to the body, and are not modelled separately.
- **Axiom names and predicates.** `create_applicability_name(Axiom)` and the axiom overloads in common.hpp are the action versions with the head predicate's name and the axiom's index and arity. `ProgramNames` models both with one set of members.
- Ranks.PairRankRowOrder: stated for the rank in unbounded arithmetic. `edge_rank` (include/tyr/datalog/delta_kpkc.hpp:125-130) computes it in 32-bit `uint_t`. Ranks.EdgeRankAsWrittenAgrees shows that the two agree for up to 65536 vertices; beyond that the order breaks (see Findings). The first clique enumerator uses the unbounded rank.
- Ranks.EdgeRankInjective: stated for the rank in unbounded arithmetic. The 32-bit `Edge::rank` (include/tyr/datalog/delta_kpkc2.hpp:61) agrees with it for up to 65536 vertices and collides beyond (see Findings).
- Ranks.EdgeRankBound: stated for the rank in unbounded arithmetic. The 32-bit rank (include/tyr/datalog/delta_kpkc_graph.hpp:57) is always below 2^32 and equals this rank for up to 65536 vertices.
- GbfsLazyParser.ParseFailsIff: stated for a run whose record holds none of the twelve pattern keys before parsing. A pattern that does not occur would otherwise leave the old value under its key, and that value then decides the failure.
- GbfsLazyParser.ParseFlags: stated for such a run, for the same reason; `DeriveFlags` states the flags for any record.
- GbfsLazyParser.RecordAt: stated for such a run, as are `LengthRecorded`, `UnsolvableRecorded`, `InvalidRecorded`, `NsRecorded` and `ExpandedRecorded`; `LogPatterns.ApplyPatternsFill` covers a record that already holds pattern keys.
- Strings.IsDigit: ASCII digits only. Python's `\d` on a `str` also matches other Unicode decimal digits. The model takes the input to be ASCII text.
- Strings.IsSpace: the six ASCII whitespace characters only. Python's `\s` and `str.strip()` also treat `\x1c`-`\x1f`, `\x85` and the Unicode space separators as whitespace.
- Strings.Strip: strips the ASCII whitespace of `Strings.IsSpace` only, for the same reason.
- Strings.SplitLines: breaks at '\n' only. Python's `splitlines()` also breaks at "\r\n", '\r', '\v', '\f', `\x1c`-`\x1e`, `\x85`, U+2028 and U+2029. The model takes the input to be '\n'-separated.
- DeltaKpkcSearch.ForEachNewKClique: clique soundness is stated under four layout conditions: partition p holds the vertices from its offset on, in order; `vertex_to_partition` maps each listed vertex to p; the full graph has no edge inside a partition; every delta edge is a full edge. The offset comment at include/tyr/datalog/delta_kpkc.hpp:221 assumes the first. `AllocatedOwnPartition`, `CrossEdgesKPartite` and `NextDeltaInFull` derive the other three from the graph construction. Without the first, the update reads the wrong adjacency bits and nothing is promised.
- DeltaKpkcSearch.CompleteFromSeed, DeltaKpkcSearch.VisitAnchor and DeltaKpkcSearch.ScanRow: clique soundness under the same layout conditions.
- SetOps.IntersectInPlace: idempotence and the fact that `other` is untouched are not stated separately. Both follow from the membership characterisation of the result and from value semantics.
- SetOps.UnionInPlace: idempotence and the fact that `other` is untouched are not stated separately, for the same reason.
- **Concurrency.** Thread-local buffers are modelled as fresh values. The unpacked-state pool and the worker-thread setting are left out.

## Findings

| source | as written | input that shows it | evidently intended | confidence | as-written member | corrected member |
|---|---|---|---|---|---|---|
| include/tyr/formalism/scoped_repository.hpp:78-94 | `operator[]` reads a local element at the unshifted index, although local elements are created under global size + local size | a global repository holding one element and one new local element: it gets index 1, and the local container has no position 1 | read local position index - global size, as the planning repository does at include/tyr/formalism/planning/repository.hpp:196 | high, not executed | ScopedRepository.AsWrittenMissesLocal | ScopedRepository.ScopedFindSound |
| include/tyr/planning/applicability.hpp:105-115 | the multi-operator fold combines the children with multiplication, whatever the operator | the sum of 2 and 3 as a multi-operator evaluates to 6 | fold with the multi-operator's own operator, as the Datalog evaluation does at include/tyr/datalog/applicability.hpp:99 | high, not executed | PlanningApplicability.MultiAddAsWritten | PlanningApplicability.AsWrittenAgreesOnProducts |
| include/tyr/datalog/delta_kpkc2.hpp:61 | `Edge::rank(nv)` computes `src * nv + dst` in 32-bit `uint_t`, which wraps once nv exceeds 65536; include/tyr/datalog/delta_kpkc_graph.hpp:57 does the same | 65537 vertices: the edges {0, 65535} and {65535, 65536} both get rank 65535 | a rank that tells edges apart, computed in a type wide enough for nv * nv | low, not executed | Ranks.EdgeRankAsWrittenWraps | Ranks.EdgeRankInjective |
| include/tyr/datalog/delta_kpkc.hpp:125-130 | `edge_rank(u, v)` computes `a * num_vertices + b` in `uint_t`, so the anchor tests at lines 144-145 and 236-237 compare wrapped values | 65537 vertices: the edge {65535, 65536} ranks 65535, below the edge {1, 2} at 65539 | ranks that order edges by their smaller end first | low, not executed | Ranks.EdgeRankAsWrittenWraps | Ranks.PairRankRowOrder |
| include/tyr/planning/applicability.hpp:223 | `resize(fterm + 1, NONE)` also shrinks the family list, dropping the records of higher terms | an increase on term 5, an assignment on term 2, then an assignment on term 5: all three pass, though the first and third conflict | grow the list only, keeping every record | medium, not executed | PlanningApplicability.ShrinkingFamiliesAsWritten | PlanningApplicability.EffectKeepsFamilies |
