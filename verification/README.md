# Flow-graph code generation with error provenance

This project models the core of a small TypeScript experiment repository. A
low-code flow graph (an "intermediate JSON" of nodes linked by `next`) is turned
into TypeScript source, and compiler diagnostics on that source are traced back
to the handler that wrote the offending text.

The repository tries several ways of recording provenance, and each is its own
module here:

- `TsMorph4` (`src/ts-morph4.ts`): the full generator. `CodeGenerator` finds the
  `start-node` and follows `next` links. It dispatches each node to its
  registered handler (start, change-variable, call-logic), and each handler
  validates the node's property bag before it renders text. `AstTransformer`
  records the range `[end before, end after]` that each operation wrote.
  `getDiagnostics` maps every located diagnostic to the tag of the first
  segment whose closed range holds its offset.
- `SourceMapAnalysis` (`src/morph-analysis-using-sourcemap.ts`) and `TsMorph3`
  (`src/ts-morph3.ts`): offset-range segments. They are recorded directly, or
  through a queue of transformation operations.
- `LocateDetailProperty` (`src/morph-locate-detail-property.ts`): segments
  plus per-property sub-ranges found with `indexOf`, and the trimmed line around
  the offending offset.
- `CommentAnalysis` (`src/morph-analysis-using-comments.ts`): `// START id` and
  `// END id` marker comments. Attribution comes from the last markers found
  before the offset.
- `Formular` (`src/formular.ts`): a graph-to-AST emitter. Tagged values,
  if and switch statements, and a variable context.
- `ArrayChange` (`src/array-change.js`): the `MendixList` wrapper and four
  loops. They show which updates reach the caller's data.

Shared pieces:

- `Basics`: the JavaScript string primitives used (`toLowerCase`, `trim`,
  `slice`, number-to-text, `join`).
- `JsValue`: untyped property bags, truthiness, `String(v)`,
  `JSON.stringify`.
- `Morph`: a ts-morph `SourceFile` seen as an append-only character buffer.
- `Provenance`: closed-interval first-match lookup, tilings of the text by
  back-to-back segments, and the line scan.

The source file and the compiler are inputs to the model. A generated file is
the text its statements render to. The diagnostics are a list of
`(start?, length?, category, message)` records.

Facts the model proves that the code has as written:

- Lookup is first-match over closed intervals. An offset on the boundary
  shared by two back-to-back segments is attributed to the earlier one
  (`Provenance.TiledAttribution`, `SourceMapAnalysis.TwoSegmentAttribution`).
- In `src/ts-morph4.ts` the segments carry the fixed handler tags
  `change-variable` and `call-logic`, never graph node ids
  (`TsMorph4.GeneratedAttribution`).
- The call-logic declarations are named after the static counter, while the
  `param` block names `paramValue_<index>`. The two agree only while the
  counter is still 0 (`TsMorph4.ParamNamesAgreeOnlyAtZero`).
- `processNode` has no cycle check. The model bounds the recursion depth with
  `fuel`, and running out of it stands for the stack overflow a cyclic graph
  causes. A run that did not run out is unaffected by more fuel
  (`TsMorph4.ProcessFuelMonotone`).

## Model

| member | source | states |
|---|---|---|
| Basics.NatText | src/ts-morph4.ts:209 | the decimal text of the counter in `paramValue_${n}` is non-empty and all digits |
| Basics.ToLower | src/ts-morph4.ts:162 | `toLowerCase` keeps the length of the type name |
| Basics.LowerEqualsIff | src/ts-morph4.ts:162-170 | comparing character by character is the same as comparing the lower-cased text with the case label |
| Basics.ToLowerIdempotent | src/ts-morph4.ts:246 | lower-casing twice gives the same text as lower-casing once |
| Basics.TrimStart | src/ts-morph3.ts:147 | the result is a suffix of the input, everything dropped is white space, and the result does not start with white space |
| Basics.TrimEnd | src/ts-morph3.ts:147 | the result is a prefix of the input, everything dropped is white space, and the result does not end with white space |
| Basics.TrimIsSlice | src/ts-morph3.ts:147 | `trim()` returns a contiguous slice of its input |
| Basics.TrimIsInnerPiece | src/morph-locate-detail-property.ts:162 | the trimmed line is a slice with only white space before and after it, and has no white space at either end |
| Basics.Trim | src/ts-morph3.ts:147 | `trim()` (no contract of its own): `Basics.TrimIsSlice` and `Basics.TrimIsInnerPiece` state its properties |
| Basics.Slice | src/morph-locate-detail-property.ts:106 | `slice(a, b)` with in-range bounds is the sub-sequence `[a, b)`, and it is never longer than the input |
| Basics.Join | src/morph-locate-detail-property.ts:91 | `join(sep)` (no contract of its own): `LocateDetailProperty.JoinHasPart` states that every part occurs in the result |
| JsValue.Prop | src/ts-morph4.ts:131-138 | `o[name]` yields a value only for an object that has a member of that name with that value |
| JsValue.Lookup | src/ts-morph4.ts:187-196 | a found value is that of the last member of that name, and `undefined` means no member has that name |
| JsValue.Truthy | src/ts-morph4.ts:252 | JavaScript truthiness (no contract of its own): used by the converters and validations of `TsMorph4.HandleOutcome` |
| JsValue.ToText | src/ts-morph4.ts:248 | `String(v)` (no contract of its own): used by `TsMorph4.ConvertCallValue`, whose properties `TsMorph4.ConvertersAgree` states |
| JsValue.Stringify | src/ts-morph4.ts:254 | `JSON.stringify` (no contract of its own): `JsValue.StringifyObject` states how an object prints, and `TsMorph4.ConvertersAgree` that only the call-logic converter uses it, for `object` |
| JsValue.LastIndex | src/ts-morph4.ts:131-138 | the index found holds the last member of that name, and none is found exactly when no member has that name |
| JsValue.CreationOrder | src/ts-morph4.ts:254 | the object's property names, each once: exactly the names some member carries |
| JsValue.CreationOrderFirst | src/ts-morph4.ts:254 | the names come in the order their properties were created: each name's property was created before that of every name after it |
| JsValue.IndexKeyInjective | src/ts-morph4.ts:254 | two array-index keys with the same numeric value are the same key |
| JsValue.Select | src/ts-morph4.ts:254 | keeps exactly the array-index keys (or exactly the others), and keeps distinct keys distinct |
| JsValue.SelectKeepsOrder | src/ts-morph4.ts:254 | selecting keys keeps their creation order |
| JsValue.InsertIndexKey | src/ts-morph4.ts:254 | inserting adds one key |
| JsValue.InsertIndexKeyElements | src/ts-morph4.ts:254 | inserting adds just the key |
| JsValue.ConsAscending | src/ts-morph4.ts:254 | a key below the first of ascending keys may go in front of them |
| JsValue.InsertIndexKeyAscending | src/ts-morph4.ts:254 | inserting a key whose value is new keeps the keys in ascending numeric order |
| JsValue.SortIndexKeysSorted | src/ts-morph4.ts:254 | distinct array indices sort into strictly ascending numeric order, keeping exactly the input keys |
| JsValue.OwnKeys | src/ts-morph4.ts:254 | the key order `JSON.stringify` visits (no contract of its own): `JsValue.OwnKeysOrder` states its properties |
| JsValue.OwnKeysOrder | src/ts-morph4.ts:254 | every property is listed exactly once, and array-index keys come first, in ascending numeric order |
| JsValue.OwnKeysCreationOrder | src/ts-morph4.ts:254 | after the array indices, the other names follow in the order their properties were created |
| JsValue.StringifyMembersRead | src/ts-morph4.ts:254 | keys that all name a property print once each, in order, with the value `o[key]` reads |
| JsValue.StringifyObject | src/ts-morph4.ts:254 | an object prints every property once, in own-key order, each with the value `o[key]` reads, so a name listed twice prints once with its last value |
| JsValue.DuplicateNamePrintsOnce | src/ts-morph4.ts:254 | `{"a":1,"a":2}` prints as `{"a":2}` |
| JsValue.IndexKeyPrintsFirst | src/ts-morph4.ts:254 | an object listing `b` and then `2` prints as `{"2":2,"b":1}` |
| Morph.SourceFile.AddStatements | src/morph-analysis-using-comments.ts:24 | `addStatements(code)` appends the code, followed by a line break unless the code already ends with one, and changes nothing else in the text |
| Morph.SourceFile.AddWrittenStatements | src/ts-morph4.ts:274-276 | `addStatements(writer)` appends the writer's rendered lines |
| Morph.SourceFile.AddVariableStatement | src/morph-analysis-using-sourcemap.ts:31-39 | `addVariableStatement` appends the statement's text |
| Morph.StatementText | src/morph-analysis-using-sourcemap.ts:31-39 | the printed text of a variable statement (no contract of its own): `Morph.SourceFile.AddVariableStatement` states that exactly this text is appended |
| Morph.Render | src/ts-morph4.ts:274-276 | the text of a `CodeBlockWriter` (no contract of its own): `Morph.SourceFile.AddWrittenStatements` states that exactly this text is appended, and `TsMorph4.CommasRenderAsJoin` how it renders the `param` block |
| Provenance.FirstCovering | src/ts-morph4.ts:361-363 | the index found is the first segment whose closed range `[start, end]` holds the offset; nothing is found exactly when no segment holds it |
| Provenance.HandlerSpans | src/morph-analysis-using-sourcemap.ts:80-82 | the ranges searched are the segments' ranges, in order |
| Provenance.HandlerAt | src/ts-morph3.ts:150-152 | the answer is 'unknown' or the handler id of a segment whose closed range holds the offset, and it is 'unknown' whenever no segment holds it |
| Provenance.TilesAppend | src/morph-analysis-using-sourcemap.ts:29-43 | recording a segment that starts at the current end keeps the segments back to back |
| Provenance.TilesOrdered | src/morph-analysis-using-sourcemap.ts:42-48 | back-to-back segments lie inside the text and each ends no later than the next begins |
| Provenance.TiledAttribution | src/morph-analysis-using-sourcemap.ts:80-82 | over back-to-back segments, an offset in `(start, end]` of segment k is attributed to k, so a shared boundary goes to the earlier segment |
| Provenance.TiledHandlerAt | src/ts-morph3.ts:150-152 | the same for handler ids: an offset in `(start, end]` of segment k yields k's handler id, or 'unknown' for an empty id |
| Provenance.TiledAttributionAtStart | src/ts-morph3.ts:150-152 | offset 0 of a non-empty tiling goes to the first segment |
| Provenance.TiledCoverage | src/ts-morph4.ts:361-363 | some segment is found exactly when there are segments and the offset lies within the text they tile |
| Provenance.LineStart | src/morph-locate-detail-property.ts:153-156 | the line start never lies after the offset |
| Provenance.LineEnd | src/morph-locate-detail-property.ts:158-161 | the line end never lies before the offset |
| Provenance.LineBounds | src/morph-locate-detail-property.ts:152-162 | `lineStart <= offset <= lineEnd`; no line break lies in `[lineStart, lineEnd)`; `lineStart` is 0 or follows a line break; `lineEnd` is the text length or sits at a line break |
| Provenance.LineStartBounds | src/ts-morph3.ts:137-140 | the backward scan crosses no line break and stops at 0 or right after one |
| Provenance.LineEndBounds | src/ts-morph3.ts:142-145 | the forward scan crosses no line break and stops at the text end or at one |
| Provenance.ScanLine | src/ts-morph3.ts:137-145 | the two `while` loops compute exactly the scanned line bounds |
| Provenance.OffendingLine | src/ts-morph3.ts:137-147 | the trimmed line around the offset (no contract of its own): `Provenance.OffendingLineHasNoBreak` states that it holds no line break |
| Provenance.OffendingLineHasNoBreak | src/ts-morph3.ts:147 | the reported problematic line holds no line break |
| Provenance.TrimKeepsNoBreak | src/ts-morph3.ts:147 | trimming a text with no line break leaves none |
| Provenance.SliceKeepsNoBreak | src/morph-locate-detail-property.ts:162 | a slice of a text with no line break has none |
| TsMorph4.ParamsValid | src/ts-morph4.ts:191-193 | `every` fails with a TypeError exactly when a null parameter comes before any parameter whose `key` or `valueType` is not a string |
| TsMorph4.ValidateCallLogic | src/ts-morph4.ts:187-196 | call-logic validation can fail only with a TypeError |
| TsMorph4.ConvertersAgree | src/ts-morph4.ts:161-172 | on string values the two `convertValue`s agree for every type except `object`, which only the call-logic one turns into JSON text |
| TsMorph4.ConvertersIgnoreCase | src/ts-morph4.ts:245-257 | both converters give the same result for a type and for its lower-cased form |
| TsMorph4.LowerEqualsLowered | src/ts-morph4.ts:246 | a case-insensitive comparison is unchanged by lower-casing its input first |
| TsMorph4.ConvertChangeValue | src/ts-morph4.ts:161-172 | the change-variable `convertValue` (no contract of its own): its agreement with the call-logic converter and its case insensitivity are the contracts of `TsMorph4.ConvertersAgree` and `TsMorph4.ConvertersIgnoreCase` |
| TsMorph4.ConvertCallValue | src/ts-morph4.ts:245-257 | the call-logic `convertValue` (no contract of its own): its case insensitivity is the contract of `TsMorph4.ConvertersIgnoreCase`, and its only failure, a TypeError, that of `TsMorph4.DeclarationLineShape` |
| TsMorph4.ChangeVariableLines | src/ts-morph4.ts:141-158 | the change-variable writer (no contract of its own): the operation it yields and when it is reached are the contract of `TsMorph4.HandleOutcome` |
| TsMorph4.LineResultsAt | src/ts-morph4.ts:208-213 | the i-th turn of the first `forEach` declares parameter i as `paramValue_<counter + i>` |
| TsMorph4.ParamEntries | src/ts-morph4.ts:221-229 | one `key: paramValue_i` entry per parameter, in order, with a comma after all but the last |
| TsMorph4.CollectNext | src/ts-morph4.ts:208-213 | one more turn keeps an earlier throw; otherwise it throws with, or appends, the next declaration, and the visit count follows |
| TsMorph4.CollectStopAtFailure | src/ts-morph4.ts:208-213 | after the first throwing turn every longer run throws the same error, and the counter has moved once per turn reached |
| TsMorph4.VisitedBounds | src/ts-morph4.ts:208-213 | the loop reaches at most every parameter, and reaches all of them when it completes |
| TsMorph4.CollectErrors | src/ts-morph4.ts:208-213 | the loop throws only an error one of its turns throws |
| TsMorph4.CollectSingles | src/ts-morph4.ts:208-213 | when every turn writes a single line, the lines written are those lines, in order |
| TsMorph4.DeclarationsStopAtFailure | src/ts-morph4.ts:208-213 | once a parameter's conversion throws, the whole writer throws that error and the counter stops right after that parameter |
| TsMorph4.DeclarationsNext | src/ts-morph4.ts:208-213 | one more parameter is one more turn of the loop, and the counter advances only while nothing has thrown |
| TsMorph4.DeclarationLineShape | src/ts-morph4.ts:210-212 | a parameter with a value and a type declares one constant, any other parameter declares none, and the only failure is a TypeError |
| TsMorph4.ParamCounterGrowth | src/ts-morph4.ts:185-213 | a completed call-logic emission advances the static counter by exactly the number of parameters, with or without values, and the counter never decreases |
| TsMorph4.CounterAfterBounds | src/ts-morph4.ts:209 | the counter advances by at most the number of parameters, and by exactly that many when no conversion throws |
| TsMorph4.DeclarationsCount | src/ts-morph4.ts:210-212 | a completed writer declares one constant per parameter that carries a value |
| TsMorph4.DeclarationsAllValued | src/ts-morph4.ts:208-213 | when every parameter has a value, line i is parameter i's declaration under `paramValue_<counter + i>` |
| TsMorph4.ParamNamesAgreeOnlyAtZero | src/ts-morph4.ts:209-223 | a declared name and the `param` block's name for the same parameter coincide exactly when the static counter started at 0 |
| TsMorph4.NatTextInjective | src/ts-morph4.ts:209 | distinct counter values give distinct names |
| TsMorph4.DigitCharInjective | src/ts-morph4.ts:209 | distinct digits give distinct characters |
| TsMorph4.ParamBlockIsJoin | src/ts-morph4.ts:221-229 | the rendered `param` block is the entries `key: paramValue_i` in parameter order, joined by a comma and a line break |
| TsMorph4.CommasRenderAsJoin | src/ts-morph4.ts:224-227 | writing a comma after every entry but the last renders as a join on `,\n` |
| TsMorph4.HandleOutcome | src/ts-morph4.ts:97-102 | an unregistered shape throws; the start handler writes nothing; change-variable throws "Invalid properties" exactly when its validation fails, and call-logic exactly when its validation returns false; every operation is an `addStatements` under a handler tag; only call-logic moves the counter, and never backwards |
| TsMorph4.CallLogicErrorsAreTypeErrors | src/ts-morph4.ts:199-243 | a validated call-logic node can fail only with a TypeError |
| TsMorph4.DeclarationErrorsAreTypeErrors | src/ts-morph4.ts:208-213 | the declaration loop can fail only with a TypeError |
| TsMorph4.HandleSpec | src/ts-morph4.ts:97-102 | `handle` of the registered handler (no contract of its own): what it answers is the contract of `TsMorph4.HandleOutcome` |
| TsMorph4.FindById | src/ts-morph4.ts:346-349 | the node found is the first with that id, and none is found exactly when no node has it |
| TsMorph4.FindStart | src/ts-morph4.ts:341-344 | the node found is the first `start-node`, and none is found exactly when there is none |
| TsMorph4.Process | src/ts-morph4.ts:323-339 | `processNode` with a depth bound (no contract of its own): `TsMorph4.ProcessKeepsConsistent` and `TsMorph4.ProcessFuelMonotone` state what it keeps and that the bound does not change a finished walk |
| TsMorph4.Visit | src/ts-morph4.ts:327-333 | one handled node of `processNode` (no contract of its own): `TsMorph4.VisitKeepsConsistent` and `TsMorph4.VisitFuelMonotone` state its properties |
| TsMorph4.Proceed | src/ts-morph4.ts:331-338 | the operations and the continuation along `next` (no contract of its own): `TsMorph4.ProceedKeepsConsistent` and `TsMorph4.ProceedFuelMonotone` state its properties |
| TsMorph4.GenerateSpec | src/ts-morph4.ts:314-321 | `generate` (no contract of its own): `TsMorph4.GeneratedAttribution` states what the generated text and segments give to each offset |
| TsMorph4.NodeIdAt | src/ts-morph4.ts:361-363 | the answer is 'unknown' or the tag of a segment whose closed range holds the offset, and it is 'unknown' whenever no segment holds it |
| TsMorph4.Spans | src/ts-morph4.ts:361-363 | the ranges searched are the segments' ranges, in order |
| TsMorph4.ApplyKeepsConsistent | src/ts-morph4.ts:270-291 | an applied operation only appends to the text, and its segment extends the tiling of the text |
| TsMorph4.ApplyAllKeepsConsistent | src/ts-morph4.ts:331-333 | applying a node's operations in order keeps the segments a tiling of the text, stopping at the first throw |
| TsMorph4.ProcessKeepsConsistent | src/ts-morph4.ts:323-339 | every step of the walk only appends to text, segments and counter, and keeps the segments a tagged tiling of the text |
| TsMorph4.VisitKeepsConsistent | src/ts-morph4.ts:327-333 | the same for one handled node |
| TsMorph4.ProceedKeepsConsistent | src/ts-morph4.ts:331-338 | the same for the operations and the continuation along `next` |
| TsMorph4.ProcessFuelMonotone | src/ts-morph4.ts:335-338 | a walk that did not run out of depth ends the same way with any larger depth bound |
| TsMorph4.VisitFuelMonotone | src/ts-morph4.ts:327-338 | the same for one handled node |
| TsMorph4.ProceedFuelMonotone | src/ts-morph4.ts:331-338 | the same for the continuation along `next` |
| TsMorph4.Reports | src/ts-morph4.ts:356-372 | there are never more results than diagnostics |
| TsMorph4.Located | src/ts-morph4.ts:360-371 | the diagnostics kept are all and only those whose start is defined, never more than were given |
| TsMorph4.LocatedMultiplicity | src/ts-morph4.ts:360-371 | no diagnostic is kept more often than it was given |
| TsMorph4.LocatedNext | src/ts-morph4.ts:360-371 | one more diagnostic keeps the earlier result in its order and appends that diagnostic exactly when its start is defined |
| TsMorph4.ReportsKeepLocated | src/ts-morph4.ts:356-372 | the results are exactly the reports of the located diagnostics, one each and in order: as many results as located diagnostics, result i being the report for located diagnostic i; with every start defined nothing is dropped, with none defined nothing is reported |
| TsMorph4.GeneratedAttribution | src/ts-morph4.ts:351-375 | on generated output, an offset in `(start, end]` of segment k gets k's tag, so a shared boundary goes to the earlier segment; every offset of non-empty output gets a handler tag; otherwise the answer is 'unknown', never a graph node id |
| TsMorph4.Context.constructor | src/ts-morph4.ts:56-79 | a context starts with an empty file, the given nodes and no variables |
| TsMorph4.Context.SetVariable | src/ts-morph4.ts:81-87 | after `setVariable(k, v)`, `getVariable(k)` is v and every other key is unchanged |
| TsMorph4.ParamCounter.constructor | src/ts-morph4.ts:185 | the static counter starts at 0 |
| TsMorph4.DeclareParam | src/ts-morph4.ts:209-212 | one turn takes the counter's value as the name and increments the counter |
| TsMorph4.WriteDeclarations | src/ts-morph4.ts:208-213 | the first `forEach` writes the declarations and leaves the counter where the specification says |
| TsMorph4.CollectDeclarations | src/ts-morph4.ts:208-213 | the loop writes the turns' lines until the first throw, and advances the counter once per turn reached |
| TsMorph4.WriteParamEntries | src/ts-morph4.ts:221-229 | the second `forEach` writes exactly the `param` entries |
| TsMorph4.WriteCallLogic | src/ts-morph4.ts:199-243 | the call-logic writer produces the specified lines and counter |
| TsMorph4.AstTransformer.constructor | src/ts-morph4.ts:266-268 | a transformer starts with no segments over the given file |
| TsMorph4.AstTransformer.ApplyOperation | src/ts-morph4.ts:270-291 | an `addStatements` operation appends its text and records one segment from the old end to the new end; any other type throws and records nothing |
| TsMorph4.CodeGenerator.constructor | src/ts-morph4.ts:304-312 | a generator starts with a fresh transformer and no segments |
| TsMorph4.CodeGenerator.Generate | src/ts-morph4.ts:314-321 | `generate` throws when there is no start node, and otherwise walks from the first one, as specified |
| TsMorph4.CodeGenerator.Handle | src/ts-morph4.ts:97-102 | the registered handler's `handle` answers as specified, counter included |
| TsMorph4.CodeGenerator.ApplyOperations | src/ts-morph4.ts:331-333 | operations are applied in order until the first throw |
| TsMorph4.CodeGenerator.ProcessNode | src/ts-morph4.ts:323-339 | `processNode` changes the file, the segments and the counter exactly as the walk specifies |
| TsMorph4.CodeGenerator.GetDiagnostics | src/ts-morph4.ts:351-375 | the results are exactly the specified reports for the recorded segments |
| SourceMapAnalysis.SegmentLog.constructor | src/morph-analysis-using-sourcemap.ts:19 | no segments are recorded at first |
| SourceMapAnalysis.HandleNode | src/morph-analysis-using-sourcemap.ts:28-44 | a handler appends its statement and records one segment from the old end to the new end |
| SourceMapAnalysis.CreateTsSourceFileWithErrors | src/morph-analysis-using-sourcemap.ts:9-26 | the file holds the two statements in call order, and the segments are `[0, a]` for `handleNode1` and `[a, b]` for `handleNode2` |
| SourceMapAnalysis.AnalyzeTsCode | src/morph-analysis-using-sourcemap.ts:66-92 | one report per diagnostic, in order; one without a position has no handler |
| SourceMapAnalysis.TwoSegmentAttribution | src/morph-analysis-using-sourcemap.ts:80-82 | up to and including the shared boundary the first handler is named, after it the second, and beyond the end 'unknown' |
| TsMorph3.Built | src/ts-morph3.ts:43-54 | a build yields exactly one segment per operation |
| TsMorph3.IsAddVariableOperation | src/ts-morph3.ts:30-32 | the type guard (no contract of its own): `TsMorph3.BuiltSegmentsFollowOperations` states that an operation failing it appends nothing |
| TsMorph3.Step | src/ts-morph3.ts:46-71 | one `applyTransformation` in the build loop (no contract of its own): `TsMorph3.BuiltNext`, `TsMorph3.BuiltSegmentsTile` and `TsMorph3.ApplyTransformation` state its properties |
| TsMorph3.BuiltNext | src/ts-morph3.ts:46-51 | building one more operation is one more step applied to the earlier result |
| TsMorph3.BuiltSegmentsFollowOperations | src/ts-morph3.ts:43-71 | segment i carries operation i's handler id; it is empty exactly when the operation appends nothing, and always when it is not `addVariable` |
| TsMorph3.BuiltSegmentHandler | src/ts-morph3.ts:43-54 | segment i names operation i's handler |
| TsMorph3.BuiltSegmentsTile | src/ts-morph3.ts:58-71 | the segments of a build lie back to back from 0 to the end of the text |
| TsMorph3.ApplyTransformation | src/ts-morph3.ts:58-71 | an `addVariable` operation appends its statement, any other leaves the text unchanged, and the segment runs from the old end to the new end |
| TsMorph3.SourceFileBuilder.constructor | src/ts-morph3.ts:35-36 | a builder starts with no operations |
| TsMorph3.SourceFileBuilder.AddTransformation | src/ts-morph3.ts:38-41 | the operation is queued last and the same builder is returned |
| TsMorph3.SourceFileBuilder.Build | src/ts-morph3.ts:43-54 | a fresh file and segments equal to applying the queued operations in order |
| TsMorph3.CreateTsSourceFileWithErrors | src/ts-morph3.ts:103-119 | the demo file is the build of the two handlers' operations |
| TsMorph3.HandleNode1 | src/ts-morph3.ts:74-86 | the first demo handler's operation (no contract of its own): `TsMorph3.DemoAttribution` states what its segment is attributed |
| TsMorph3.HandleNode2 | src/ts-morph3.ts:88-101 | the second demo handler's operation (no contract of its own): `TsMorph3.DemoAttribution` states what its segment is attributed |
| TsMorph3.DemoAttribution | src/ts-morph3.ts:150-152 | on the demo file every offset up to the shared boundary goes to `handleNode1`, later offsets up to the end to `handleNode2`, and beyond the end to 'unknown' |
| TsMorph3.AnalyzeDiagnostic | src/ts-morph3.ts:126-159 | the report for one diagnostic is the specified one |
| TsMorph3.AnalyzeTsCode | src/ts-morph3.ts:121-163 | one report per diagnostic, in order |
| TsMorph3.Reports | src/ts-morph3.ts:126 | one report per diagnostic |
| TsMorph3.ReportsAt | src/ts-morph3.ts:126-159 | report i is the report for diagnostic i |
| TsMorph3.BuiltAttribution | src/ts-morph3.ts:132-152 | on a built file, a diagnostic starting in `(start, end]` of operation i's segment names i's handler, and its problematic line holds no line break |
| LocateDetailProperty.IndexOf | src/morph-locate-detail-property.ts:111 | `indexOf` answers -1 or a position where the text fits |
| LocateDetailProperty.IndexFrom | src/morph-locate-detail-property.ts:111 | the search from i answers -1 or a position at or after i where the text fits |
| LocateDetailProperty.IndexFromFound | src/morph-locate-detail-property.ts:111 | a position found from i holds the text |
| LocateDetailProperty.IndexOfFound | src/morph-locate-detail-property.ts:111 | a position `indexOf` finds holds the text |
| LocateDetailProperty.IndexFromFirst | src/morph-locate-detail-property.ts:111 | no occurrence from i on comes before the one found |
| LocateDetailProperty.IndexOfFirst | src/morph-locate-detail-property.ts:111 | `indexOf` finds the first occurrence |
| LocateDetailProperty.IndexOfMissing | src/morph-locate-detail-property.ts:111-112 | `indexOf` answers -1 exactly when the text does not occur |
| LocateDetailProperty.SegmentLog.constructor | src/morph-locate-detail-property.ts:30 | no segments are recorded at first |
| LocateDetailProperty.HandleStatement | src/morph-locate-detail-property.ts:40-75 | `handleNode1/2` append their statement and record one segment from the old end to the new end, without node id or properties |
| LocateDetailProperty.PropTexts | src/morph-locate-detail-property.ts:91 | one `name: value` text per configured property, in order |
| LocateDetailProperty.ObjectLiteral | src/morph-locate-detail-property.ts:90-92 | every configured `name: value` text occurs in the object literal |
| LocateDetailProperty.ObjectStatement | src/morph-locate-detail-property.ts:95-102 | the `obj` declaration (no contract of its own): `LocateDetailProperty.OccursInStatement` and `LocateDetailProperty.ObjectPropertiesLocated` state that every property text occurs in it |
| LocateDetailProperty.JoinHasPart | src/morph-locate-detail-property.ts:91 | every part of a join occurs in it |
| LocateDetailProperty.OccursInside | src/morph-locate-detail-property.ts:95-106 | text that occurs in the literal also occurs in the statement around it |
| LocateDetailProperty.LocateNext | src/morph-locate-detail-property.ts:109-123 | one more turn of the `forEach` appends what that property records |
| LocateDetailProperty.Locate | src/morph-locate-detail-property.ts:109-123 | the properties the `forEach` records (no contract of its own): `LocateDetailProperty.LocateSound` and `LocateDetailProperty.LocateComplete` state that they are well located and, when every text occurs, complete |
| LocateDetailProperty.LocateOne | src/morph-locate-detail-property.ts:110-121 | one turn of the `forEach` (no contract of its own): `LocateDetailProperty.LocateOneSound` and `LocateDetailProperty.LocateOneFound` state its properties |
| LocateDetailProperty.LocateSound | src/morph-locate-detail-property.ts:105-121 | every recorded range holds exactly `name: value`, lies inside the added code, and is the first occurrence at or after the statement's start |
| LocateDetailProperty.WellLocatedAppend | src/morph-locate-detail-property.ts:109-123 | well-located lists stay well located when joined |
| LocateDetailProperty.LocateOneSound | src/morph-locate-detail-property.ts:111-121 | what one turn records is well located |
| LocateDetailProperty.NoEarlierOccurrence | src/morph-locate-detail-property.ts:106-111 | no occurrence after the statement's start comes before the one recorded |
| LocateDetailProperty.LocateComplete | src/morph-locate-detail-property.ts:109-123 | when every property's text occurs in the added code, each is recorded once, under its own name, in configured order |
| LocateDetailProperty.NamedAppend | src/morph-locate-detail-property.ts:109-123 | recording the next property under its own name extends the configured-order naming |
| LocateDetailProperty.LocateOneFound | src/morph-locate-detail-property.ts:111-121 | a property whose text occurs is recorded once, under its own name |
| LocateDetailProperty.LocateProperties | src/morph-locate-detail-property.ts:109-123 | the loop records exactly the located properties, skipping those not found |
| LocateDetailProperty.HandleObjectNode | src/morph-locate-detail-property.ts:77-132 | the object statement is appended and one segment is recorded over it, holding one well-located property per configured one |
| LocateDetailProperty.SegmentSpans | src/morph-locate-detail-property.ts:165-167 | the ranges searched are the segments' ranges, in order |
| LocateDetailProperty.ObjectPropertiesLocated | src/morph-locate-detail-property.ts:105-123 | every configured property of the object statement is found in it |
| LocateDetailProperty.OccursInStatement | src/morph-locate-detail-property.ts:95-102 | whatever occurs in the literal occurs in the rendered statement |
| LocateDetailProperty.ThreeTile | src/morph-locate-detail-property.ts:41-131 | three segments recorded back to back from 0 tile the text they end at |
| LocateDetailProperty.BuildSourceFile | src/morph-locate-detail-property.ts:21-38 | three handlers in order give the three statements, segments tagged `handleNode1`, `handleNode2` and the object handler that tile the text, and well-located properties |
| LocateDetailProperty.CreateTsSourceFileWithErrors | src/morph-locate-detail-property.ts:21-38 | the demo file has these properties for the demo configuration |
| LocateDetailProperty.PropertySpans | src/morph-locate-detail-property.ts:174-177 | the ranges searched are the properties' ranges, in order |
| LocateDetailProperty.FindProperty | src/morph-locate-detail-property.ts:174-177 | the property found is the specified first closed-range match |
| LocateDetailProperty.AnalyzeDiagnostic | src/morph-locate-detail-property.ts:140-194 | the report for one diagnostic is the specified one; without a start or a length it carries no location or handler |
| LocateDetailProperty.DetailReports | src/morph-locate-detail-property.ts:140 | one report per diagnostic |
| LocateDetailProperty.DetailReportsAt | src/morph-locate-detail-property.ts:140-194 | report i is the report for diagnostic i |
| LocateDetailProperty.AnalyzeTsCode | src/morph-locate-detail-property.ts:134-198 | one report per diagnostic, in order |
| LocateDetailProperty.DetailAttribution | src/morph-locate-detail-property.ts:165-177 | over back-to-back segments, a start in `(start, end]` of segment k names k's handler and the first property of k whose closed range holds it |
| LocateDetailProperty.PropertyAtFirst | src/morph-locate-detail-property.ts:174-177 | inside a segment, the first property whose closed range holds the offset is named |
| CommentAnalysis.DigitsEnd | src/morph-analysis-using-comments.ts:68-69 | the greedy `\d+` run ends at or after where it starts |
| CommentAnalysis.MatchAt | src/morph-analysis-using-comments.ts:68-69 | a match at i ends past the marker and the `handleNode` head, inside the text |
| CommentAnalysis.Matches | src/morph-analysis-using-comments.ts:68-69 | `matchAll` from a position (no contract of its own): `CommentAnalysis.MatchIndices`, `CommentAnalysis.MatchesSplit` and `CommentAnalysis.OwnMarkerLine` state what it finds |
| CommentAnalysis.MatchesFrom | src/morph-analysis-using-comments.ts:68-69 | the scan once a position has been tried (no contract of its own): `CommentAnalysis.MatchFound` and `CommentAnalysis.MatchMissed` state its two steps |
| CommentAnalysis.MarkerFacts | src/morph-analysis-using-comments.ts:68-69 | the characters of the two marker patterns that the scan relies on |
| CommentAnalysis.DigitsEndLocal | src/morph-analysis-using-comments.ts:68-69 | the digit run reads the same in two texts that agree up to a line break |
| CommentAnalysis.MatchAtLocal | src/morph-analysis-using-comments.ts:68-69 | whether a match starts before a line break depends only on the text up to it |
| CommentAnalysis.MatchesSplit | src/morph-analysis-using-comments.ts:68-69 | scanning a text that starts with a line ending at a line break finds that line's matches, then the rest's |
| CommentAnalysis.MarkerHeadNoBreak | src/morph-analysis-using-comments.ts:68-69 | neither pattern holds a line break |
| CommentAnalysis.MatchFound | src/morph-analysis-using-comments.ts:68-69 | a match is recorded and the scan resumes after it |
| CommentAnalysis.NoMatchesWithoutSlash | src/morph-analysis-using-comments.ts:68-69 | a stretch without slashes yields no match |
| CommentAnalysis.MatchIndices | src/morph-analysis-using-comments.ts:68-69 | every match starts inside the scanned stretch of the text |
| CommentAnalysis.DigitsEndAt | src/morph-analysis-using-comments.ts:68-69 | the greedy digit run ends exactly at the first non-digit after it, or at the end of the text |
| CommentAnalysis.LineFacts | src/morph-analysis-using-comments.ts:24 | the characters of a marker line |
| CommentAnalysis.LineMatchEnd | src/morph-analysis-using-comments.ts:24-69 | a marker line matches its own marker at its start, up to its line break |
| CommentAnalysis.LineCapture | src/morph-analysis-using-comments.ts:68-69 | the capture group of a marker line is its handler id |
| CommentAnalysis.OwnMarkerLine | src/morph-analysis-using-comments.ts:24-69 | a marker line yields exactly one match of its own marker, at its start, naming its handler |
| CommentAnalysis.LineBreakAt | src/morph-analysis-using-comments.ts:24 | a marker line ends with its line break |
| CommentAnalysis.NoMatchAtBreak | src/morph-analysis-using-comments.ts:68-69 | no match starts at a line break |
| CommentAnalysis.MatchMissed | src/morph-analysis-using-comments.ts:68-69 | where no match starts, the scan moves on by one |
| CommentAnalysis.OtherMissesSlashes | src/morph-analysis-using-comments.ts:68-69 | the other marker does not match at either opening slash of a marker line |
| CommentAnalysis.LineSlashFree | src/morph-analysis-using-comments.ts:24 | a marker line holds no slash after its opening two |
| CommentAnalysis.OtherMarkerLine | src/morph-analysis-using-comments.ts:24-69 | a marker line yields no match of the other marker |
| CommentAnalysis.OpenedLast | src/morph-analysis-using-comments.ts:71-78 | a START found after every END names its handler |
| CommentAnalysis.ClosedLast | src/morph-analysis-using-comments.ts:71-80 | an END found after every START gives 'unknown' |
| CommentAnalysis.LastUnclosed | src/morph-analysis-using-comments.ts:71-80 | the comparison of the last START and END matches (no contract of its own): `CommentAnalysis.OpenedLast` and `CommentAnalysis.ClosedLast` state its two outcomes |
| CommentAnalysis.AttributeAt | src/morph-analysis-using-comments.ts:67-80 | attribution from the text strictly before the offset (no contract of its own): `CommentAnalysis.InsideBlockAttribution` and `CommentAnalysis.AfterBlockAttribution` state what it gives |
| CommentAnalysis.ScanPastOwnLine | src/morph-analysis-using-comments.ts:68-69 | scanning past a marker's own line adds exactly that line's match |
| CommentAnalysis.ScanPastOtherLine | src/morph-analysis-using-comments.ts:68-69 | scanning past the other marker's line adds nothing |
| CommentAnalysis.OpenAttribution | src/morph-analysis-using-comments.ts:71-78 | text ending in a START line and a stretch without slashes is attributed to that START's handler |
| CommentAnalysis.EndLineAttribution | src/morph-analysis-using-comments.ts:67-80 | text that ends with an END line, after a line break or at the very start, is attributed to 'unknown': that END is the last END match and every START match lies before it |
| CommentAnalysis.HandleNode | src/morph-analysis-using-comments.ts:21-52 | a handler appends `// START id`, its statement and `// END id`, in that order |
| CommentAnalysis.MarkerStatement | src/morph-analysis-using-comments.ts:24-34 | adding a marker statement writes the marker line |
| CommentAnalysis.CreateTsSourceFileWithErrors | src/morph-analysis-using-comments.ts:3-19 | the demo file is the two handlers' blocks in call order |
| CommentAnalysis.HandlerIdsOfDemo | src/morph-analysis-using-comments.ts:15-16 | the demo ids match the capture pattern |
| CommentAnalysis.OpenLayout | src/morph-analysis-using-comments.ts:67 | how a prefix that ends inside a statement is laid out |
| CommentAnalysis.InsideBlockAttribution | src/morph-analysis-using-comments.ts:67-80 | for a statement that holds no '/', wherever its block sits after output ending at a line break, an offset inside the statement is attributed to its handler, whatever follows |
| CommentAnalysis.AfterBlockAttribution | src/morph-analysis-using-comments.ts:67-80 | wherever a block sits and whatever its statement holds, the offset right after its END line is attributed to 'unknown' |
| CommentAnalysis.XHasNoSlash | src/morph-analysis-using-comments.ts:26-33 | the first demo statement holds no slash |
| CommentAnalysis.YHasNoSlash | src/morph-analysis-using-comments.ts:42-50 | the second demo statement holds no slash |
| CommentAnalysis.DemoAttribution | src/morph-analysis-using-comments.ts:53-90 | on the demo file an offset in the first statement goes to `handleNode1`, one in the second to `handleNode2`, and the offset between the blocks to 'unknown' |
| CommentAnalysis.AnalyzeTsCode | src/morph-analysis-using-comments.ts:53-90 | one report per diagnostic, in order, attributed from the text strictly before its offset; one without a position has no handler |
| Formular.ValueExpressionMeaning | src/formular.ts:17-43 | an `EXPRESSION` value evaluates to whether its text is `true`; any other tag evaluates to the raw string |
| Formular.Parse | src/formular.ts:17-23 | `FormulaEditor.parse` (no contract of its own): `Formular.ValueExpressionMeaning` states what an emitted call to it evaluates to |
| Formular.ValueExpression | src/formular.ts:31-43 | the tagged value expression (no contract of its own): its meaning is the contract of `Formular.ValueExpressionMeaning` |
| Formular.HandleIfNode | src/formular.ts:64-105 | `handleIfNode` (no contract of its own): its shape is the contract of `Formular.IfNodeShape` |
| Formular.IfNodeShape | src/formular.ts:64-105 | an if statement always has a then and an else block, each holding one fixed log line, and it depends only on the condition |
| Formular.CaseClausesInOrder | src/formular.ts:125-136 | one case clause per case, in input order, labelled with the case's value and logging `Case <v> executed` |
| Formular.CaseClausesIgnoreNext | src/formular.ts:125-136 | the clauses depend only on the case values, not on their `next` ids |
| Formular.CaseClauses | src/formular.ts:125-136 | `node.cases.map(...)` (no contract of its own): `Formular.CaseClausesInOrder` and `Formular.CaseClausesIgnoreNext` state its properties |
| Formular.HandleSwitchNode | src/formular.ts:108-142 | `handleSwitchNode` (no contract of its own): its clauses are those `Formular.CaseClausesInOrder` describes |
| Formular.LastWriteWins | src/formular.ts:7-13 | a name is bound exactly when some call wrote it, and it reads the value of the last such call |
| Formular.ReplayAppend | src/formular.ts:7-13 | later writes override earlier ones, and other names keep their earlier values |
| Formular.Context.constructor | src/formular.ts:4-5 | a context starts with no variables |
| Formular.Context.SetVariable | src/formular.ts:7-13 | the name then reads back the value, and every other name is unchanged |
| Formular.HandleChangeVariableNode | src/formular.ts:26-61 | declares `key[1]` with the tagged value and stores that value under `key[1]` in the context |
| Formular.EmittedFiltersThenMaps | src/formular.ts:155-170 | the walk emits one statement per change-variable, if or switch node, in array order, and skips every other shape |
| Formular.Emitted | src/formular.ts:155-170 | the statements of the walk (no contract of its own): `Formular.EmittedFiltersThenMaps` and `Formular.EmittedAppend` state its properties |
| Formular.HandledNodesAppend | src/formular.ts:155-170 | one more node adds itself to the handled nodes exactly when its shape is handled |
| Formular.EmittedAppend | src/formular.ts:155-170 | walking two stretches of nodes is walking the first and then the second |
| Formular.PrefixStep | src/formular.ts:155-170 | one more node adds its statement and its context write |
| Formular.InjectVariables | src/formular.ts:151-153 | the first loop binds every input `key` to its `name`, in order |
| Formular.VisitNode | src/formular.ts:156-169 | one turn dispatches on the shape, emitting that node's statement and write |
| Formular.WalkNodes | src/formular.ts:155-170 | the second loop emits the specified statements and makes the specified context writes |
| Formular.GenerateTsCode | src/formular.ts:145-173 | the input variables are injected before any node is visited, and the statements are the walk's statements |
| ArrayChange.ListItem.constructor | src/array-change.js:8-12 | a box holds the value it was given |
| ArrayChange.Person.constructor | src/array-change.js:38-42 | a person record holds its name and age |
| ArrayChange.Unwrap | src/array-change.js:27-29 | the values of the boxes, in order |
| ArrayChange.MendixList.constructor | src/array-change.js:15-17 | each initial item is wrapped in its own new box, in order, and `toArray()` then equals the input |
| ArrayChange.MendixList.Get | src/array-change.js:19-21 | `get(i)` is the i-th box, or `undefined` outside the list |
| ArrayChange.MendixList.ToArray | src/array-change.js:23-29 | the boxed values, in order, as many as `length()` |
| ArrayChange.CountStep | src/array-change.js:48-52 | one more element of a prefix adds one occurrence of it |
| ArrayChange.Test1 | src/array-change.js:38-57 | the array read back holds the same persons in the same order, each aged once per time it is listed |
| ArrayChange.AgeThroughList | src/array-change.js:48-52 | the loop through the boxes ages the shared person objects |
| ArrayChange.Test2 | src/array-change.js:63-73 | incrementing through the array ages every listed person in place |
| ArrayChange.Test3 | src/array-change.js:79-85 | incrementing a copied number leaves the array unchanged |
| ArrayChange.Test4 | src/array-change.js:90-105 | the array read back holds each number plus one, and the original array is unchanged |
| ArrayChange.Test1Demo | src/array-change.js:2-57 | on its own data, Alice, Bob and Charlie come back aged 31, 26 and 36 |

## Left out

- Console output, `main()` drivers, file paths and the printed report text are not modelled. A report is a value holding what would be printed.
- The compiler is an input. `getPreEmitDiagnostics` is the list of diagnostics handed to `analyzeTsCode` and `getDiagnostics`. Line and column (`getLineAndColumnAtPos`) are not computed.
- ts-morph, `ts.factory` and the printer are not part of this model. A variable statement renders as `const name[: type] = initializer;` and a line break. `CodeBlockWriter` output is each of its lines followed by a line break, without indentation. The formular AST is a datatype, and `createSourceFile` and printing are left out.
- TsMorph4.CodeGenerator.ProcessNode: the recursion depth is bounded by `fuel`. Running out stands for the stack overflow of a cyclic `next` chain, whose actual depth is not modelled.
- TsMorph4.ConvertCallValue: numbers are integers and print in decimal. `JSON.stringify` of floating-point values, and `toString` on other values, are not modelled beyond `JsValue.ToText`.
- Basics.ToLower: lower-cases only the ASCII letters. Unicode case mapping is not modelled.
- Formular.HandleChangeVariableNode: requires `key` to have a second element. With fewer, the source passes `undefined` to the identifier factory, and that factory's behaviour is not part of this model.
- Formular.GenerateTsCode: returns the statement list and the context instead of the printed `SourceFile`.
- ArrayChange.Test1: takes the person list as a parameter and returns the list read back, instead of reassigning a local.
- Ages and the numbers of the list tests are unbounded integers rather than IEEE doubles.
- Offsets count Unicode characters, not the UTF-16 code units in which `getEnd`, `getFullText().slice`, `indexOf` and diagnostic starts count. The two agree on text without characters outside the Basic Multilingual Plane.
- Formular.Context: the variable table is a map from names to values. The source's plain `{}` also answers names it inherits from `Object.prototype` (`toString`, `constructor`, `__proto__`), and writing `__proto__` does not create an entry; neither is modelled.
- The generated code's `window.request` call and `await` are text only. Their runtime behaviour is not modelled.
