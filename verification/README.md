# Verified model of Iaga Sentinel's policy language, receipt chain and stateful kernels

This project models the parts of Iaga Sentinel that decide, record and admit, and proves what
they promise. `dafny verify dfyconfig.toml` checks all of it.

## What is modelled

**The Dictum policy language.**
`Grammar` is a declarative grammar of the language over tokens; `Parsing` is the recursive-descent parser as
functions and `Parser` the same parser as a cursor that advances and rewinds in place. The parser accepts exactly the
grammar, the grammar is unambiguous, a minimally parenthesized print parses back to its program (`Printer`), and a
failure is reported at the first token that cannot be right (`GrammarLocality`, `ParserLocality`, `ViablePrefix`).
`Types` is unification over a substitution with an `Unknown` wildcard, `Infer` the inference rules and `TypeChecker` the
environment that carries them out; `TypeRules` says what they accept without variables. `Eval` gives every expression
its meaning and its number of steps; `Evaluator` is the evaluator that spends a budget, and refines the two;
`ValueLaws` says what it answers, operator by operator. `ProgramEvaluation` holds the plain and the fail-closed
evaluator of whole programs, `ProgramLaws` what they report, `FailClosed` the merge with the baseline decision, and
`ErrorTightening` what guard errors do to the decisions of loaded programs. `Wasm` and `WasmTruncation` are the code
generator with an interpreter of the instructions it emits (sections 4.3.2 and 4.4.1 of the WebAssembly Core
Specification); its own documentation calls it non-canonical. The model proves what it compiles, what the code of every
well-typed expression computes, that this is the evaluator's value when all literals fit in 32 bits, and that the two
divergences the documentation names are real.
`Structure`, `Validator`, `Footprint`, `Overlay` and `ContextValues` cover the structural checks, the paths a program can
read, the schema those paths are checked against, and what they read.

**The receipt chain.**
`Merkle` is the chain verifier against a declarative chain condition, `ReceiptStore` the SQLite-backed store as an
object, `AppendProtocol` any number of writers interleaving the two halves of an append, and `ChainEvidence` what an
accepted chain proves about the store. `OfflineVerify` holds the Rust and the Python verifier of exports, and
`ScalarMult` the scalar multiplication the Python one uses for signatures; `ExportedRuns` joins store and verifiers.

**Stateful kernels.**
`LineSplit`, `LineSplitProofs`, `LineSplitCuts` and `CappedLines` are the bounded line reader; `AuthHistory`,
`AuthCache`, `AuthMiddleware`, `RequestEvents`, `AuthRuns`, `RunHistory`, `LiveKeys`, `KeyDeletion`, `LateHit`, `OpenLag`
and `LateOpening` the cache of verified API keys under interleaved requests; `Dsse` the pre-authentication encoding of
attestations; `StableSort` and `PolicyHash` the canonical form a policy digest is taken over.

Hashes are injective functions, a signature scheme is a signing function and a predicate that accepts what it signed,
and host library functions (case mapping, host names, time stamps, digests, the secret detector, JSON text) are
deterministic parameters. Floating-point numbers are finite reals. Clocks, network answers and the key table's
failures are inputs of the steps that use them.

## Where the code and its documentation differ

The model follows the code.

- Inferred `when` types are documented as always Bool; a bare path is accepted and stays Unknown (`Infer.GuardType`,
  `Infer.WhenTypes`).
- Traced evaluation is documented as never failing open on a guard error. For every list of verdicts with a Review
  before a Block there are a loadable program and two requests such that the Review's guard errs on the second and
  hides the Block that fires on the first (`ErrorTightening.HiddenBlock`). For every other list no error weakens the
  decision of any program (`ErrorTightening.ErrorsOnlyTightenExactly`).
- A guard that is not a Bool is reported as `must be bool, got bool`: the error carries the expected type for the actual
  one (`TypeRules.GuardExactly`).
- The store's contract says that an append runs inside a transaction. It does not: the head is read and the row
  inserted in separate statements, and `AppendProtocol` proves the primary key is enough.
- The line reader resumes in the middle of an over-long line after refusing it. All ways of cutting a stream into
  reads get the same answers through its end exactly when every line is within the cap and what follows the last
  newline is at most one byte over it (`LineSplitCuts.CutsAgreeExactly`).
- A policy digest is documented as stable under reordering of any list; with two different tools of one name it is not
  (`PolicyHash.OrderBlindExactly`, `PolicyHash.DuplicateNamesNoticed`).
- Deleting a key is documented as taking effect immediately; a request that had already verified the key may still
  cache it afterwards (`KeyDeletion.LateHitExactly` says exactly when, `LateHit.DeletedKeyAnswered` gives a run).
- The flag that says whether any key exists is documented to lag a new key by at most the TTL. The flag itself is never
  older than that when it is read, but a request sets it some time after its listing, and nothing bounds that time
  (`OpenLag.OverlookedExactly` says exactly when a key can be overlooked, `LateOpening.KeyOverlooked` gives a run).
- Open mode is documented to apply when no keys exist. A request without a cached flag takes a failed listing for an
  empty table, so whatever keys exist open mode can admit somebody (`OpenLag.FailingListingOpens`).
- The two offline verifiers give the same verdict on an export but may name different receipts of a broken one;
  `OfflineVerify.BlameExactly` says exactly when they name the same.

## Model

| member | source | states |
|---|---|---|
| `ParserTheorems.ParserExact` | crates/iaga-sentinel-dictum/src/parser.rs:20-257 | a token list parses to a program exactly when the grammar derives that program from all of it |
| `ParserTheorems.ParserRejects` | crates/iaga-sentinel-dictum/src/parser.rs:20-28 | a token list is refused exactly when no program derives it |
| `ParserTheorems.GrammarUnambiguous` | crates/iaga-sentinel-dictum/src/parser.rs:3-9 | no token list derives two programs |
| `ParserTheorems.ExpressionsUnambiguous` | crates/iaga-sentinel-dictum/src/parser.rs:3-9 | no token list derives two expressions |
| `ViablePrefix.FailureExactly` | crates/iaga-sentinel-dictum/src/parser.rs:20-257 | the tokens before the one a failure reports begin some program; with it they begin one exactly when it is a `not` after which an `in` would have been read, and with the next they never do |
| `ParserLocality.PoliciesLocal` | crates/iaga-sentinel-dictum/src/parser.rs:189-207 | a failure depends on no token after the one that does not fit, except on the `in` that would turn a `not` into `not in` |
| `ParserSoundness.MemberTailSound` | crates/iaga-sentinel-dictum/src/parser.rs:176-211 | what follows a left operand, including a `not` that turns out not to start `not in` and is given back, is read as the grammar has it |
| `ParserCompleteness.MemberComplete` | crates/iaga-sentinel-dictum/src/parser.rs:176-211 | every membership phrase, negated or not, and every bare operand is parsed to its own tree and end |
| `Printer.RoundTrip` | crates/iaga-sentinel-dictum/src/parser.rs:20-28 | the minimally parenthesized print of any program without empty paths parses back to that program |
| `Printer.ParserRange` | crates/iaga-sentinel-dictum/src/parser.rs:213-256 | the programs some token list parses to are exactly those without empty paths |
| `Parser.Cursor.ReadMembershipOperator` | crates/iaga-sentinel-dictum/src/parser.rs:189-207 | `in` and `not in` are consumed; a lone `not` leaves the cursor where it was |
| `Parser.Cursor.ParseMembership` | crates/iaga-sentinel-dictum/src/parser.rs:176-211 | the cursor ends where the specification parser ends, with its tree or its failure position |
| `Parser.Cursor.ParsePrimary` | crates/iaga-sentinel-dictum/src/parser.rs:213-256 | likewise for literals, calls, paths and parentheses |
| `Parser.Cursor.ParseAction` | crates/iaga-sentinel-dictum/src/parser.rs:85-120 | likewise for verdicts with any order and repetition of attributes |
| `Parser.Cursor.ParsePolicy` | crates/iaga-sentinel-dictum/src/parser.rs:69-83 | likewise for a policy |
| `Parser.Parse` | crates/iaga-sentinel-dictum/src/parser.rs:20-28 | the loop over policies returns the specified program, or the cursor one past the token that does not fit |
| `Types.ApplyResolves` | crates/iaga-sentinel-dictum/src/types.rs:82-99 | applying an acyclic substitution leaves no bound variable |
| `Types.ApplyIdempotent` | crates/iaga-sentinel-dictum/src/types.rs:82-99 | applying twice is applying once |
| `Types.ApplyExtends` | crates/iaga-sentinel-dictum/src/types.rs:82-99 | a type resolved under a substitution resolves the same first or later under any extension of it |
| `Types.UnifyAcyclic` | crates/iaga-sentinel-dictum/src/types.rs:104-126 | unification keeps the substitution acyclic and only adds bindings, so resolving types always ends |
| `Types.UnifyUnifies` | crates/iaga-sentinel-dictum/src/types.rs:104-126 | after success both types are equal up to Unknown |
| `Types.UnifyMostGeneral` | crates/iaga-sentinel-dictum/src/types.rs:104-126 | on types without Unknown the new substitution has exactly the solutions that equate both types; failure means there are none |
| `Types.OccursInAtom` | crates/iaga-sentinel-dictum/src/types.rs:135-141 | the occurs check finds exactly the variable a resolved type is built on |
| `Infer.InferShape` | crates/iaga-sentinel-dictum/src/types.rs:238-308 | exactly paths are Unknown; exactly calls of unknown builtins get a variable, still unbound |
| `Infer.GuardType` | crates/iaga-sentinel-dictum/src/types.rs:196-211 | a recorded guard type is Bool, or Unknown exactly for a bare path, and every bare path is accepted with that type |
| `Infer.WhenTypes` | crates/iaga-sentinel-dictum/src/types.rs:196-211 | so is every recorded type of a program, in order |
| `TypeRules.InferExactly` | crates/iaga-sentinel-dictum/src/types.rs:238-308 | inference succeeds exactly when every node fits its operands by the typing rules, with no variables or substitutions in them; otherwise it reports the first broken constraint in the order they are checked |
| `TypeRules.GuardExactly` | crates/iaga-sentinel-dictum/src/types.rs:196-211 | a guard passes exactly when all its nodes fit and it is Bool or unknown; one of another kind is reported as a Bool that is not one |
| `TypeRules.ProgramExactly` | crates/iaga-sentinel-dictum/src/types.rs:196-236 | a program passes exactly when every guard does; otherwise the first that does not is reported |
| `TypeChecker.TypeEnv.Fresh` | crates/iaga-sentinel-dictum/src/types.rs:74-78 | a fresh variable is one the environment does not mention |
| `TypeChecker.TypeEnv.UnifyTypes` | crates/iaga-sentinel-dictum/src/types.rs:104-126 | the in-place unification has the specified result and substitution |
| `TypeChecker.TypeEnv.InferType` | crates/iaga-sentinel-dictum/src/types.rs:238-308 | the in-place inference has the specified type, substitution and counter, or the specified error |
| `TypeChecker.InferTypes` | crates/iaga-sentinel-dictum/src/types.rs:196-211 | checking a program accepts and records exactly what the specification does |
| `TypeSoundness.Preservation` | crates/iaga-sentinel-dictum/src/types.rs:238-308 | if an expression has type T and value v then v inhabits T under every later substitution |
| `TypeSoundness.Progress` | crates/iaga-sentinel-dictum/src/eval.rs:236-305 | a well-typed expression without paths, membership, `len`, `timestamp` and unknown calls never fails, and gives a value of its type |
| `Eval.StepsBounded` | crates/iaga-sentinel-dictum/src/eval.rs:236-305 | evaluation never takes more steps than the expression has nodes |
| `Evaluator.EvalBudget.Tick` | crates/iaga-sentinel-dictum/src/eval.rs:98-105 | a tick moves one step from remaining to used, or reports exhaustion with the steps used |
| `Evaluator.EvalExpr` | crates/iaga-sentinel-dictum/src/eval.rs:236-271 | for every budget: one that covers the steps gives the unbudgeted outcome and is charged exactly them, so a larger one gives the same; a smaller one is spent entirely and reported; remaining plus used never changes |
| `Evaluator.Visit` | crates/iaga-sentinel-dictum/src/eval.rs:236-271 | the recursive evaluation of one node charges the meter as specified |
| `Evaluator.EvalBinop` | crates/iaga-sentinel-dictum/src/eval.rs:273-305 | likewise for binary operators, with the right side of a decided `and` or `or` neither evaluated nor paid for |
| `Evaluator.EvalBuiltin` | crates/iaga-sentinel-dictum/src/eval.rs:369-427 | likewise for builtin calls |
| `Evaluator.ResolveJson` | crates/iaga-sentinel-dictum/src/eval.rs:433-441 | the subtree handed to the secret check is the specified one, at the specified cost |
| `Evaluator.WalkPath` | crates/iaga-sentinel-dictum/src/eval.rs:336-348 | the walk ends at the value under the path, or null where a key is missing |
| `Evaluator.DefaultBudgetSuffices` | crates/iaga-sentinel-dictum/src/eval.rs:108-112 | an expression of at most 10,000 nodes never exhausts the default budget |
| `ValueLaws.PathFound` | crates/iaga-sentinel-dictum/src/eval.rs:336-367 | a path that leads through objects to a subtree gives the value that stands for it, arrays element by element and objects as null |
| `ValueLaws.PathMissing` | crates/iaga-sentinel-dictum/src/eval.rs:336-348 | a path that leads nowhere gives null |
| `ValueLaws.NotNegates` | crates/iaga-sentinel-dictum/src/eval.rs:33-44 | `not` is true exactly of null, false, zero, the empty text and the empty list |
| `ValueLaws.ConjunctionExactly` | crates/iaga-sentinel-dictum/src/eval.rs:280-288 | `and` is true exactly when both operands are, false when either the first is or, the first being true, the second is, and fails as the operand that decides |
| `ValueLaws.DisjunctionExactly` | crates/iaga-sentinel-dictum/src/eval.rs:289-296 | `or` likewise |
| `ValueLaws.ConnectiveSteps` | crates/iaga-sentinel-dictum/src/eval.rs:280-296 | the second operand of a connective costs nothing exactly when the first fails or settles it |
| `ValueLaws.EqualityExactly` | crates/iaga-sentinel-dictum/src/eval.rs:307-315 | `==` holds exactly of equal values and of an integer and a float for one number; `!=` is its negation |
| `ValueLaws.IntegerOrder` | crates/iaga-sentinel-dictum/src/eval.rs:317-334 | the four orders compare integers as integers |
| `ValueLaws.FloatOrder` | crates/iaga-sentinel-dictum/src/eval.rs:317-334 | with a float on either side they compare as reals |
| `ValueLaws.TextOrder` | crates/iaga-sentinel-dictum/src/eval.rs:317-334 | they compare texts by the first place where they differ |
| `ValueLaws.OrderFails` | crates/iaga-sentinel-dictum/src/eval.rs:317-326 | ordering anything else fails |
| `ValueLaws.MembershipInList` | crates/iaga-sentinel-dictum/src/eval.rs:247-268 | `in` a list holds exactly when some position holds an equal value; `not in` is its negation |
| `ValueLaws.MembershipInText` | crates/iaga-sentinel-dictum/src/eval.rs:247-268 | `in` a text holds exactly when the text splits around the needle; `not in` is its negation |
| `ValueLaws.MembershipFails` | crates/iaga-sentinel-dictum/src/eval.rs:256-266 | membership in anything else, or of a non-text in a text, fails |
| `ValueLaws.FirstOperandFails` | crates/iaga-sentinel-dictum/src/eval.rs:244-303 | the failure of a first operand is that of the whole, and nothing after it is evaluated |
| `ValueLaws.TextSearches` | crates/iaga-sentinel-dictum/src/eval.rs:396-400 | `contains`, `starts_with` and `ends_with` hold of texts exactly when the first splits around, after or before the second |
| `ValueLaws.ListSearch` | crates/iaga-sentinel-dictum/src/eval.rs:397 | `contains` holds of a list exactly when some position holds an equal value |
| `ValueLaws.Lengths` | crates/iaga-sentinel-dictum/src/eval.rs:401-402 | `len` counts the characters of a text and the elements of a list |
| `ValueLaws.HostNamed` | crates/iaga-sentinel-dictum/src/eval.rs:405-408 | `url_host` gives the host the library finds; so do `lower`, `upper` and `sha256` their functions |
| `ValueLaws.Timed` | crates/iaga-sentinel-dictum/src/eval.rs:409-416 | `timestamp` gives the instant of a text, or fails |
| `ValueLaws.OtherCallsFail` | crates/iaga-sentinel-dictum/src/eval.rs:419-424 | called with values it does not take, or by another name, a call fails |
| `ValueLaws.ArgumentFails` | crates/iaga-sentinel-dictum/src/eval.rs:394-395 | the first argument that fails decides a call, and the later ones are not evaluated |
| `ValueLaws.SecretAtPath` | crates/iaga-sentinel-dictum/src/eval.rs:375-392 | `secret_ref` of a path scans the whole subtree, a text as it is and an object rendered |
| `ValueLaws.SecretInValue` | crates/iaga-sentinel-dictum/src/eval.rs:433-441 | of any other argument it scans the JSON of its value |
| `ValueLaws.EveryNodeOnce` | crates/iaga-sentinel-dictum/src/eval.rs:236-303 | without connectives, successful evaluation takes one step for every node |
| `ProgramEvaluation.EvaluateProgram` | crates/iaga-sentinel-dictum/src/eval.rs:126-147 | first-fire evaluation on one shared budget, with its first error |
| `ProgramEvaluation.EvaluateProgramTraced` | crates/iaga-sentinel-dictum/src/eval.rs:175-232 | the trace is the first fire over resolved guards, with its count of evaluated policies and error flag |
| `ProgramEvaluation.TracedRefinesPlain` | crates/iaga-sentinel-dictum/src/eval.rs:175-232 | whenever plain evaluation succeeds, tracing fires the same policy, verdict, reason and evidence without errors |
| `ProgramLaws.PlainExactly` | crates/iaga-sentinel-dictum/src/eval.rs:126-147 | with steps enough for the guards up to the first that is not false, and its evidence, plain evaluation answers that policy, with its evidence, or the failure; with fewer it reports the budget used up |
| `ProgramLaws.TraceExactly` | crates/iaga-sentinel-dictum/src/eval.rs:175-232 | the first policy fires whose guard is true, or that is a Review or Block whose guard fails or is not done in 10,000 steps; such a guard reports `dictum-eval-error` and no evidence, a true one the policy's reason and the evidence that evaluates |
| `FailClosed.TraceVerdict` | crates/iaga-sentinel-dictum/src/eval.rs:202-222 | the traced verdict is the first fire where an error counts as true for Review and Block and false for Allow |
| `FailClosed.MergeTightens` | crates/iaga-sentinel-core/src/pipeline/dictum_overlay.rs:233-258 | the merged decision is never below the baseline or the fired verdict, and is one of the two |
| `FailClosed.MergedExactly` | crates/iaga-sentinel-core/src/pipeline/dictum_overlay.rs:233-258 | the merged decision blocks exactly when either side does, and allows exactly when neither blocks nor reviews |
| `FailClosed.OutcomesOnlyTightenExactly` | crates/iaga-sentinel-dictum/src/eval.rs:202-222 | over all sequences of guard outcomes, turning some into errors never lowers the merged decision exactly for verdict lists with no Review before a Block |
| `ErrorTightening.TraceDecides` | crates/iaga-sentinel-core/src/pipeline/dictum_overlay.rs:182-191 | the decision on a request is the baseline merged with the verdict its trace fired |
| `ErrorTightening.OrderedNeverWeakened` | crates/iaga-sentinel-dictum/src/eval.rs:202-222 | in a program with no Review before a Block, guards erring in one context and not in another never give the first a weaker decision |
| `ErrorTightening.ErrorsOnlyTightenExactly` | crates/iaga-sentinel-dictum/src/eval.rs:175-232 | a verdict list has no Review before a Block exactly when no loadable program with it, built contexts and baseline exist where turning guard outcomes into errors weakens the decision |
| `ErrorTightening.HiddenBlock` | crates/iaga-sentinel-dictum/src/eval.rs:202-222 | for every list with a Review before a Block there are a loadable program and two requests where the Review's error hides the Block |
| `Wasm.EmitExpr` | crates/iaga-sentinel-dictum/src/wasm.rs:145-194 | emission appends the specified code to the function, or refuses with the specified error |
| `Wasm.EmitsExactly` | crates/iaga-sentinel-dictum/src/wasm.rs:145-194 | an expression is compiled exactly when none of its nodes is a string literal, path, call or membership test; otherwise the error names the first such node, left to right |
| `Wasm.CompileToWasm` | crates/iaga-sentinel-dictum/src/wasm.rs:96-134 | succeeds exactly when no guard has a string literal, path, call or membership test, with one function body per policy closed by an end; otherwise names the first such node of the first such guard |
| `Wasm.StackEffect` | crates/iaga-sentinel-dictum/src/wasm.rs:145-194 | the code of every accepted expression, typed or not, runs on any stack and pushes the 32-bit value defined by recursion on the expression |
| `Wasm.BitwiseFlags` | crates/iaga-sentinel-dictum/src/wasm.rs:17-30 | on 0 and 1 the bitwise instructions compute the logical connectives |
| `Wasm.CompilerCorrect` | crates/iaga-sentinel-dictum/src/wasm.rs:145-194 | for well-typed accepted expressions with 32-bit literals the code pushes exactly the encoding of the evaluated value |
| `WasmTruncation.TruncatingCompilerCorrect` | crates/iaga-sentinel-dictum/src/wasm.rs:145-194 | for all well-typed accepted expressions it pushes the encoding of the value of the expression with literals truncated to signed 32 bits |
| `WasmTruncation.TruncatedExactly` | crates/iaga-sentinel-dictum/src/wasm.rs:150-156 | truncation leaves an expression alone exactly when all its literals fit |
| `Wasm.GuardCorrect` | crates/iaga-sentinel-dictum/src/wasm.rs:96-134 | a compiled guard returns 1 if evaluation makes the policy fire and 0 otherwise |
| `Wasm.LargeLiteralDisagrees` | crates/iaga-sentinel-dictum/src/wasm.rs:145-160 | the literal bound is needed: `4294967296 == 0` is well typed and false but its code returns 1 |
| `Wasm.UntypedDisagrees` | crates/iaga-sentinel-dictum/src/wasm.rs:17-30 | typing is needed: `2 and 1` is true but its code returns 0 |
| `Validator.Validate` | crates/iaga-sentinel-dictum/src/validator.rs:35-96 | accepts exactly the programs whose names are not blank and distinct, whose paths have segments and whose calls of builtins have their number of arguments; otherwise reports the first policy and, in it, the first node at fault |
| `Structure.DefectExactly` | crates/iaga-sentinel-dictum/src/validator.rs:60-107 | an expression has no defect exactly when no node is malformed; otherwise the first malformed node in preorder is reported |
| `Validator.PathsExactly` | crates/iaga-sentinel-dictum/src/validator.rs:120-141 | the collected paths are those of the path nodes, no more and no less |
| `Validator.CollectPaths` | crates/iaga-sentinel-dictum/src/validator.rs:109-141 | collects the paths of every guard and evidence, in order |
| `Footprint.MeaningReadsPaths` | crates/iaga-sentinel-dictum/src/validator.rs:120-141 | contexts that agree on an expression's collected paths give it the same outcome and the same number of steps |
| `ProgramFootprint.TraceReadsPaths` | crates/iaga-sentinel-dictum/src/validator.rs:109-141 | contexts that agree on a program's collected paths give it the same trace: evaluation reads no other path |
| `Overlay.ValidateContextPaths` | crates/iaga-sentinel-core/src/pipeline/dictum_overlay.rs:82-127 | accepts exactly when the schema accepts every collected path, reporting the conditional roots once each in order of use; otherwise names the first bad path |
| `Overlay.BuildOverlayContext` | crates/iaga-sentinel-core/src/pipeline/dictum_overlay.rs:274-337 | the context has exactly the documented roots, each with the object built for it (`ContextValues` says what a policy reads there) |
| `ContextValues.AgentValues` | crates/iaga-sentinel-core/src/pipeline/dictum_overlay.rs:304-308 | `agent.id` and `agent.framework` are the request's |
| `ContextValues.ActionValues` | crates/iaga-sentinel-core/src/pipeline/dictum_overlay.rs:284-313 | `action.kind` is the name of the request's kind, one text for each of the seven, `action.tool_name` its tool and `action.payload` its payload |
| `ContextValues.PayloadValues` | crates/iaga-sentinel-core/src/pipeline/dictum_overlay.rs:298-313 | any path below `action.payload` reads what the request carries there |
| `ContextValues.WorkspaceValues` | crates/iaga-sentinel-core/src/pipeline/dictum_overlay.rs:300-303 | `workspace.id` is the workspace or the empty text, and the allowlist is the configured one element by element |
| `ContextValues.RiskValues` | crates/iaga-sentinel-core/src/pipeline/dictum_overlay.rs:293-319 | `risk.score` is the score and `risk.decision` the name of the baseline decision |
| `ContextValues.ConditionalValues` | crates/iaga-sentinel-core/src/pipeline/dictum_overlay.rs:320-336 | `ml`, `usage.session_cost_usd` and `budget.limit` hold what is configured, or nothing |
| `ContextValues.NothingElse` | crates/iaga-sentinel-core/src/pipeline/dictum_overlay.rs:304-336 | no other path is there outside the payload and the scores |
| `Overlay.AlwaysProvided` | crates/iaga-sentinel-core/src/pipeline/dictum_overlay.rs:65-78 | the accepted paths outside `ml`, `usage`, `budget` and the inside of `action.payload` are exactly those found under the root values of all requests and configurations |
| `Overlay.ProgramProvidedExactly` | crates/iaga-sentinel-core/src/pipeline/dictum_overlay.rs:82-127 | every built context has every key of every path of a program exactly when all its paths are accepted and outside those roots |
| `Overlay.LoadedPathsProvided` | crates/iaga-sentinel-core/src/pipeline/dictum_overlay.rs:274-337 | of the paths of an accepted program, exactly those outside those roots are found in every built context |
| `Overlay.AcceptsExactly` | crates/iaga-sentinel-core/src/pipeline/dictum_overlay.rs:65-73 | the schema accepts exactly the paths that some request and configuration provide |
| `Merkle.VerifyChain` | crates/iaga-sentinel-receipts/src/merkle.rs:22-70 | valid exactly when every receipt has its run, sequence number, parent hash and signature; otherwise names the first broken receipt and its first failed check |
| `Merkle.ChainExactly` | crates/iaga-sentinel-receipts/src/merkle.rs:22-87 | the chain condition spelled out: run, position, the hash of the body before and none for the first, signature |
| `Merkle.ReasonExactly` | crates/iaga-sentinel-receipts/src/merkle.rs:34-66 | the reason a receipt is refused for is the first of these that fails, in this order |
| `Merkle.LastBodyDeterminesChain` | crates/iaga-sentinel-receipts/src/merkle.rs:74-87 | two accepted chains with equal last body hash are of one run, one length and equal throughout |
| `ReceiptStore.SqliteReceiptStore.Head` | crates/iaga-sentinel-receipts/src/sqlite.rs:145-157 | the row of the run with the greatest sequence number |
| `ReceiptStore.SqliteReceiptStore.GetRun` | crates/iaga-sentinel-receipts/src/sqlite.rs:159-188 | the run's rows by ascending sequence number, or the first whose body disagrees with its key column |
| `ReceiptStore.SqliteReceiptStore.VerifyRun` | crates/iaga-sentinel-receipts/src/sqlite.rs:190-196 | the status of the stored run: valid exactly when the chain condition holds, else the first broken receipt and its first failed check; an error for an unreadable or unknown run |
| `ReceiptStore.SqliteReceiptStore.CheckLink` | crates/iaga-sentinel-receipts/src/store.rs:23-42 | accepts a receipt exactly when it comes right after the last row of its run and carries that row's hash, or starts the run; changes nothing |
| `ReceiptStore.SqliteReceiptStore.Insert` | crates/iaga-sentinel-receipts/src/sqlite.rs:117-143 | the row is added, or the key is taken and nothing changes; a linked signed receipt keeps the table chained |
| `ReceiptStore.SqliteReceiptStore.Append` | crates/iaga-sentinel-receipts/src/sqlite.rs:97-143 | uninterrupted, an append extends its run by the receipt and neither adds, changes nor drops a row of another run, or refuses and changes nothing |
| `AppendProtocol.StepSafe` | crates/iaga-sentinel-receipts/src/sqlite.rs:97-143 | every step of every writer keeps the table chained and never changes or removes a row |
| `AppendProtocol.EveryInterleavingChains` | crates/iaga-sentinel-receipts/src/sqlite.rs:97-143 | after any interleaving each run has exactly the numbers 0 to n-1, reads back and is a valid chain |
| `AppendProtocol.LoserChangesNothing` | crates/iaga-sentinel-receipts/src/store.rs:23-42 | a writer that loses changes no row |
| `AppendProtocol.RefusedOnlyIfGrown` | crates/iaga-sentinel-receipts/src/store.rs:23-42 | a receipt linked to the head of a run is later refused, by the link check or the primary key, only if the run has grown |
| `AppendProtocol.AttemptFailsOnlyToProgress` | crates/iaga-sentinel-core/src/pipeline/receipts.rs:383-448 | whatever other writers do in between, an attempt appends its receipt or others have extended its run since it read the head, so a receipt is given up only after they did so on every attempt |
| `AppendProtocol.OneWinner` | crates/iaga-sentinel-receipts/src/sqlite.rs:117-143 | of two writers past the same check, the first to insert wins and the other gets DuplicateSeq |
| `AppendProtocol.LinkedIsNext` | crates/iaga-sentinel-receipts/src/merkle.rs:76-87 | the body linked to a head is numbered by the rows there are, carries the hash of the last one's body and names the signer |
| `AppendProtocol.AloneSucceeds` | crates/iaga-sentinel-core/src/pipeline/receipts.rs:383-443 | from any reachable store an uninterrupted attempt appends its receipt, so a retry succeeds once it runs alone |
| `ChainEvidence.AcceptedChainAgrees` | crates/iaga-sentinel-receipts/src/merkle.rs:22-87 | a chain that verifies, of bodies really signed, agrees with the stored chain on all but possibly its last receipt, is at most one longer, and its last body links a stored row |
| `ChainEvidence.SignedBodyAccepted` | crates/iaga-sentinel-receipts/src/merkle.rs:22-87 | every body really signed closes a chain that verifies after the stored receipts before it |
| `ChainEvidence.AcceptedExactly` | crates/iaga-sentinel-receipts/src/merkle.rs:22-87 | of the sequences of bodies really signed, with good signatures, exactly those verify that copy the stored chain up to a last body of that run with the next number |
| `ChainEvidence.StoredTipAgrees` | crates/iaga-sentinel-receipts/src/merkle.rs:22-70 | if its last body is the stored one it agrees throughout |
| `ExportedRuns.StoredRunVerifies` | crates/iaga-sentinel-verify/src/lib.rs:59-125 | whatever any number of honest writers did, the export of any stored run is valid to the Rust verifier, and to the Python one unless it refuses a float |
| `ExportedRuns.ValidExportAgrees` | crates/iaga-sentinel-verify/src/lib.rs:59-125 | a valid export of bodies really signed copies the stored run up to its last receipt |
| `ChainEvidence.LostRaceAccepted` | crates/iaga-sentinel-receipts/src/merkle.rs:83-87 | the exception occurs: the loser of a race holds a signed receipt that verifies although another is stored |
| `OfflineVerify.RustVerifyExport` | crates/iaga-sentinel-verify/src/lib.rs:59-125 | signer labels and run ids of all receipts are checked before the chain is walked; the first failure is the one reported |
| `OfflineVerify.PythonVerifyExport` | sdks/python/iaga_verify.py:182-244 | all checks of a receipt before the next receipt, refusing a float-carrying body it would have to serialize |
| `OfflineVerify.DefectExactly` | sdks/python/iaga_verify.py:196-240 | the reason reported of a receipt is its signer label, else its run id, else its place in the chain |
| `OfflineVerify.RustValidExactly` | crates/iaga-sentinel-verify/src/lib.rs:59-125 | the Rust verifier says valid exactly when the declarative condition on exports holds, and empty exactly for an empty export of the right signer |
| `OfflineVerify.PythonValidExactly` | sdks/python/iaga_verify.py:182-244 | so does the Python verifier whenever it reaches a verdict |
| `OfflineVerify.VerifiersAgree` | sdks/python/iaga_verify.py:182-244 | whenever the Python verifier reaches a verdict it is the Rust verifier's |
| `OfflineVerify.RefusesOnlyFloats` | sdks/python/iaga_verify.py:137-139 | it reaches one unless a float-carrying receipt comes before anything else disqualifies the export; so on every float-free export |
| `OfflineVerify.BlameExactly` | crates/iaga-sentinel-verify/src/lib.rs:89-120 | when the Python verifier reaches a verdict, both report the same receipt and reason exactly when the export claims the wrong signer or no receipt out of place or wrongly signed comes before the first with a wrong label or run id |
| `OfflineVerify.BlameCanDiffer` | crates/iaga-sentinel-verify/src/lib.rs:89-120 | it occurs: a two-receipt export on which they name different receipts |
| `ScalarMult.ScalarMultiply` | sdks/python/iaga_verify.py:85-94 | double-and-add is repeated addition for every multiplier, over any commutative monoid |
| `ScalarMult.RoundKeepsTotal` | sdks/python/iaga_verify.py:89-93 | each round keeps the result plus the remaining multiple of the base |
| `ScalarMult.TimesProduct` | sdks/python/iaga_verify.py:85-94 | a multiple of a multiple is the multiple by the product |
| `ScalarMult.TimesInjective` | sdks/python/iaga_verify.py:127-129 | multiples of a base point of given order coincide exactly when the multipliers are congruent |
| `ScalarMult.CheckEquation` | sdks/python/iaga_verify.py:127-129 | the final comparison decides the verification equation |
| `ScalarMult.SignatureEquation` | sdks/python/iaga_verify.py:125-129 | for a key and commitment generated by the base point, the equation of section 5.1.7 of RFC 8032 holds exactly when s is congruent to the honest signer's value |
| `LineSplitProofs.PiecesExact` | crates/iaga-sentinel-core/src/mcp_proxy/protocol.rs:137-170 | the reference split is the one way to write a stream as newline-free pieces joined by newlines |
| `LineSplitProofs.StepMatches` | crates/iaga-sentinel-core/src/mcp_proxy/protocol.rs:137-186 | each read leaves exactly the answers still due |
| `LineSplitProofs.AnswersMatch` | crates/iaga-sentinel-core/src/mcp_proxy/protocol.rs:137-186 | the answers up to the first that is not a line are those of the reference split |
| `LineSplitProofs.ChunkIndependent` | crates/iaga-sentinel-core/src/mcp_proxy/protocol.rs:137-186 | two ways of cutting one stream into reads get the same answers up to the first error or end, except for the count an over-long line is reported with |
| `LineSplitProofs.ExpectedExactly` | crates/iaga-sentinel-core/src/mcp_proxy/protocol.rs:165-186 | all answers but the last are the pieces in order, none over the cap; the last is an over-long error exactly when some piece is over the cap, else a failed read or the end; an empty last piece is no line |
| `LineSplitProofs.LinesAreTexts` | crates/iaga-sentinel-core/src/mcp_proxy/protocol.rs:188-195 | every line delivered is its piece without the one carriage return at its end, or the whole piece if it has none there |
| `LineSplitProofs.LinesWithinCap` | crates/iaga-sentinel-core/src/mcp_proxy/protocol.rs:165-181 | no line handed out through the end, past every error, is over the cap; the answers up to the first that is not a line end in the over-long error exactly when some piece is over the cap |
| `LineSplitCuts.CalmAnswers` | crates/iaga-sentinel-core/src/mcp_proxy/protocol.rs:137-186 | through the end, past errors, the answers to a fault-free stream with lines within the cap and a last piece at most one byte over are exactly those of its pieces, reported counts included |
| `LineSplitCuts.WildCut` | crates/iaga-sentinel-core/src/mcp_proxy/protocol.rs:169-180 | every other stream has a cut into two reads that gets one more answer than the whole stream in one read |
| `LineSplitCuts.CutsAgreeExactly` | crates/iaga-sentinel-core/src/mcp_proxy/protocol.rs:137-186 | all ways of cutting a fault-free stream get equal answers through the end, with or without the reported counts, exactly when every line is within the cap and the last piece at most one byte over it |
| `CappedLines.CappedLines.FillBuffer` | crates/iaga-sentinel-core/src/mcp_proxy/protocol.rs:141-163 | a read moves its bytes up to the newline into the buffer and loses none |
| `CappedLines.CappedLines.TakeLine` | crates/iaga-sentinel-core/src/mcp_proxy/protocol.rs:188-195 | the buffer leaves as a line; what left the stream is its text, the one carriage return taken off it, if any, and the newline |
| `CappedLines.CappedLines.Poll` | crates/iaga-sentinel-core/src/mcp_proxy/protocol.rs:138-185 | one look at the reader has the specified effect, and bytes gone, buffered and unread always make up the stream |
| `CappedLines.CappedLines.NextLine` | crates/iaga-sentinel-core/src/mcp_proxy/protocol.rs:137-186 | a call gives the next answer, taking it off all the answers due through the end; a line's text, one carriage return and the newline are what leaves, and an error's count is what was refused; dropped while waiting, it leaves the answers and loses no byte |
| `AuthHistory.HoldsExactly` | crates/iaga-sentinel-core/src/auth/cache.rs:78-142 | a history leaves an entry exactly when some event inserted it and none since touched it |
| `AuthHistory.LookupExactly` | crates/iaga-sentinel-core/src/auth/cache.rs:78-88 | a lookup answers exactly when the last event touching the key inserted that identity at most the TTL ago |
| `AuthHistory.FlagExactly` | crates/iaga-sentinel-core/src/auth/cache.rs:145-161 | the flag is known exactly when the last event that set or cleared it set it at most the TTL ago |
| `AuthHistory.InsertKeeps` | crates/iaga-sentinel-core/src/auth/cache.rs:91-120 | an insertion, with the eviction it may need, keeps cache and history consistent and within capacity |
| `AuthHistory.InvalidateKeeps` | crates/iaga-sentinel-core/src/auth/cache.rs:130-133 | so does dropping a key id |
| `AuthCache.AuthCache.Lookup` | crates/iaga-sentinel-core/src/auth/cache.rs:78-88 | the same of the cache object: an answer exactly when the last touching event inserted it at most the TTL ago |
| `AuthCache.AuthCache.Oldest` | crates/iaga-sentinel-core/src/auth/cache.rs:103-107 | the scan finds an entry inserted no later than any other |
| `AuthCache.AuthCache.Insert` | crates/iaga-sentinel-core/src/auth/cache.rs:91-120 | the entry is stored, an oldest one evicted at capacity, never more than 1024 entries; nothing when caching is off |
| `AuthCache.AuthCache.Remove` | crates/iaga-sentinel-core/src/auth/cache.rs:123-126 | the key's entry and no other is dropped |
| `AuthCache.AuthCache.InvalidateKeyId` | crates/iaga-sentinel-core/src/auth/cache.rs:130-133 | exactly the entries of the key id are dropped |
| `AuthCache.AuthCache.Clear` | crates/iaga-sentinel-core/src/auth/cache.rs:136-142 | entries are dropped in one critical section and the flag in another; together they empty the cache |
| `AuthCache.AuthCache.ClearEntries` | crates/iaga-sentinel-core/src/auth/cache.rs:137-140 | the first section drops every entry and keeps the flag |
| `AuthCache.AuthCache.ClearFlag` | crates/iaga-sentinel-core/src/auth/cache.rs:141 | the second drops the flag and keeps the entries |
| `AuthCache.AuthCache.KeysExist` | crates/iaga-sentinel-core/src/auth/cache.rs:145-154 | a value exactly when the last event that set or cleared the flag set it at most the TTL ago |
| `AuthCache.AuthCache.SetKeysExist` | crates/iaga-sentinel-core/src/auth/cache.rs:156-161 | the flag is set with its time, unless caching is off |
| `AuthMiddleware.RunSegment` | crates/iaga-sentinel-core/src/auth/middleware.rs:222-328 | each stretch of a request between two accesses to shared state does to the cache object what the specified segment does |
| `AuthMiddleware.Authenticate` | crates/iaga-sentinel-core/src/auth/middleware.rs:222-328 | run without interruption, a request is admitted as its cached identity, else as its verified identity, else as anyone in open mode when a fresh listing is empty, else refused; a verified key is then cached with the flag true, an opening leaves the flag false, a refused key has no entry, and no other entry changes but by eviction |
| `AuthMiddleware.SegmentKeepsAnswer` | crates/iaga-sentinel-core/src/auth/middleware.rs:222-328 | each segment keeps the answer the request is due and leaves fewer segments to run, so every request ends |
| `AuthRuns.StepSound` | crates/iaga-sentinel-core/src/auth/middleware.rs:222-328 | every step of any request or key change keeps every event of the history justified |
| `RequestEvents.SinceExactly` | crates/iaga-sentinel-core/src/auth/middleware.rs:234-243 | a request's own events are those after its last arrival in the history |
| `AuthRuns.HitJustified` | crates/iaga-sentinel-core/src/auth/middleware.rs:273-294 | in every run every cache hit repeats a real verification of that raw key by the request that cached it since it arrived, inserted at most the TTL earlier and not removed, evicted, invalidated or cleared since |
| `AuthRuns.AdmissionJustified` | crates/iaga-sentinel-core/src/auth/middleware.rs:250-328 | in every run an admitted request last arrived with the token it is admitted for, and since then its own access to the key table verified that token, its own lookup hit such a verification, or open mode let it in on a flag set at most the TTL before by a request whose own listing failed or was made when no key existed; with caching off, its own listing |
| `LiveKeys.LiveKeyAccepted` | crates/iaga-sentinel-core/src/auth/cache.rs:13-15 | in every run a request that presents a key whose row stays, and reaches the key table itself, is never refused: it is admitted with that key by its eighth segment |
| `OpenLag.OverlookedExactly` | crates/iaga-sentinel-core/src/auth/middleware.rs:236-328 | in every sound state with a key, an admission in open mode can still come without a deletion or a failing listing exactly when open mode is on and the flag says none or some request that listed no key has yet to act on it |
| `OpenLag.FailingListingOpens` | crates/iaga-sentinel-core/src/auth/middleware.rs:236-248 | in every sound state, whatever keys exist, a run without deletions admits somebody in open mode exactly when open mode is on |
| `LateOpening.KeyOverlooked` | crates/iaga-sentinel-core/src/auth/middleware.rs:230-265 | from the empty system, however long after a key was created and marked, a request that listed no key before is still admitted in open mode; with caching on, anyone without a token can then be for another TTL |
| `KeyDeletion.DeletionRemoves` | crates/iaga-sentinel-core/src/server/create_server.rs:895-904 | deleting the row and then the entries leaves neither, whatever ran in between |
| `KeyDeletion.RunStaysGone` | crates/iaga-sentinel-core/src/auth/cache.rs:128-133 | once both are gone and no request holds an answer for the key id, no run that does not create it again adds a cache hit on it to the history |
| `KeyDeletion.LateHitExactly` | crates/iaga-sentinel-core/src/auth/middleware.rs:284-294 | once both are gone, some run that does not create the key id again adds a cache hit on it to the history exactly when caching is on and some request verified it but has not yet stored the answer |
| `LateHit.DeletedKeyAnswered` | crates/iaga-sentinel-core/src/server/create_server.rs:895-904 | from the empty system a run of key creation, verification and complete deletion reaches such a state, and a continuation answers the key from the cache |
| `Dsse.NumberOfDecimal` | crates/iaga-sentinel-core/src/plugins/attest.rs:157 | decimal digits read back as the number they print |
| `Dsse.DssePae` | crates/iaga-sentinel-core/src/plugins/attest.rs:154-165 | the step-by-step buffer is the encoding of the protocol's definition |
| `Dsse.PaeLayout` | crates/iaga-sentinel-core/src/plugins/attest.rs:152-165 | the encoding is `DSSEv1`, then length and bytes of the type, then of the payload, set off by spaces, lengths in decimal without leading zeros |
| `Dsse.DecodeExact` | crates/iaga-sentinel-core/src/plugins/attest.rs:152-165 | a decoder accepts exactly the encodings and returns what was encoded |
| `Dsse.PaeInjective` | crates/iaga-sentinel-core/src/plugins/attest.rs:152-165 | equal encodings come from equal payload types and payloads, for all byte strings |
| `StableSort.SortStable` | crates/iaga-sentinel-core/src/pipeline/policy_hash.rs:28 | sorting keeps the order of elements with equal keys |
| `StableSort.SortIdentifies` | crates/iaga-sentinel-core/src/pipeline/policy_hash.rs:24-28 | sorting identifies exactly the sequences that agree under every key |
| `Strings.LeqExactly` | crates/iaga-sentinel-core/src/pipeline/policy_hash.rs:24-28 | texts are ordered by the first place where they differ |
| `PolicyHash.WorkspacePolicyHash` | crates/iaga-sentinel-core/src/pipeline/policy_hash.rs:22-43 | the in-place sorts and the loop over tools digest the canonical form |
| `PolicyHash.CanonicalAscends` | crates/iaga-sentinel-core/src/pipeline/policy_hash.rs:22-28 | domains and tool names ascend in the canonical form, and protocols by name |
| `PolicyHash.ToolAscends` | crates/iaga-sentinel-core/src/pipeline/policy_hash.rs:29-37 | so do the fields and action names of each tool |
| `PolicyHash.SameToolExactly` | crates/iaga-sentinel-core/src/pipeline/policy_hash.rs:29-37 | two tools canonicalise alike exactly when they differ only in the order of their lists |
| `PolicyHash.CanonicalCommutes` | crates/iaga-sentinel-core/src/pipeline/policy_hash.rs:28-37 | sorting the tools before or after their own lists gives one result |
| `PolicyHash.CanonicalExactly` | crates/iaga-sentinel-core/src/pipeline/policy_hash.rs:22-43 | for all policies: canonical forms agree exactly when settings agree up to order and, name by name, so do the tools in order |
| `PolicyHash.CanonicalLossless` | crates/iaga-sentinel-core/src/pipeline/policy_hash.rs:22-43 | policies with one canonical form differ only in the order of their lists |
| `PolicyHash.CanonicalOrderBlind` | crates/iaga-sentinel-core/src/pipeline/policy_hash.rs:19-21 | reordering any list of a policy whose same-named tools are the same tool keeps the canonical form |
| `PolicyHash.OrderBlindExactly` | crates/iaga-sentinel-core/src/pipeline/policy_hash.rs:19-28 | a policy's canonical form ignores order exactly when its same-named tools are the same tool |
| `PolicyHash.DuplicateNamesNoticed` | crates/iaga-sentinel-core/src/pipeline/policy_hash.rs:28 | two same-named tools with different decisions, swapped, change it |
| `PolicyHash.HashExactly` | crates/iaga-sentinel-core/src/pipeline/policy_hash.rs:38-42 | under an injective digest two such policies share a hash exactly when one reorders the other |

## Left out

- The lexer: the parser starts from tokens, and failures carry a token position instead of message, line and column.
- `sanitize_export` and the binary encoding of WASM modules: only instruction lists and their execution are modelled.
- Overflow of the fresh-variable counter, of sequence numbers past 63 bits and of the budget counters: they are unbounded here.
- Floating-point rounding and comparison inside `Eval`: floats are finite reals, conversion from integers is a host function, and unsigned JSON integers past the signed range arrive as floats.
- The internals of `timestamp`, `sha256`, `lower`, `upper`, `url_host`, the secret detector and JSON rendering: deterministic host functions, the first of which may fail.
- The three tables of builtin names (validator, type inference, evaluator) are one table in `Builtins`.
- SHA-256, Ed25519 point decoding and the Edwards addition formula: hashes are injective, signatures a shared predicate, and point addition any commutative monoid.
- Decoding of keys, hex and export files. Before any receipt is looked at the two offline verifiers may differ on what
  they reject. Afterwards the Python one hashes the JSON object it received while the Rust one serializes the typed body
  again and drops unknown fields, so an extra field in a receipt changes the bytes of the Python one alone; the model
  gives both one body and one signature predicate.
- SQL, migrations, `list_runs` and the PostgreSQL store, whose append runs the same two statements.
- Other contents of a receipt body than run, sequence number, parent hash and signer: one opaque field.
- UTF-8 decoding of lines handed out by the bounded reader, which replaces invalid bytes: lines are bytes here.
- Capability tokens, request extensions and HTTP around authentication; `AuthMiddleware` models the decision and the cache.
- The Argon2 check: verifying a raw key is a lookup in the key table, which may fail.
- The wiring of overlay, receipts and governance pipeline, rate limiting, taint tracking and the session graph.
