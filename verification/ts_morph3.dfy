/** The provenance variant of `src/ts-morph3.ts`: handlers return operation
    records, a builder queues them and applies them in order to a fresh source
    file, recording for each operation the range it wrote. */
module TsMorph3 {
  import opened Basics
  import opened Morph
  import opened Provenance

  /** `TransformOperation`; `config` is the variable statement an `addVariable`
      operation adds and is ignored for every other type. */
  datatype TransformOperation = TransformOperation(type_: string, handlerId: string, config: VariableStatement)

  /** `isAddVariableOperation`. */
  predicate IsAddVariableOperation(op: TransformOperation)
  {
    op.type_ == "addVariable"
  }

  /** What applying an operation appends: its statement for `addVariable`,
      nothing for any other type. */
  function OperationText(op: TransformOperation): string
  {
    if IsAddVariableOperation(op) then StatementText(op.config) else ""
  }

  /** What a builder has produced so far: the text and the recorded segments. */
  datatype BuildResult = BuildResult(text: string, segments: seq<HandlerSegment>)

  /** Applying one operation: append its text and record the range it spans. */
  function Step(b: BuildResult, op: TransformOperation): BuildResult
  {
    var text := b.text + OperationText(op);
    BuildResult(text, b.segments + [HandlerSegment(op.handlerId, Span(|b.text|, |text|))])
  }

  /** The text and segments after applying `ops` in order to an empty file. */
  function Built(ops: seq<TransformOperation>): (r: BuildResult)
    ensures |r.segments| == |ops|
    decreases |ops|
  {
    if ops == [] then BuildResult("", []) else Step(Built(ops[..|ops| - 1]), ops[|ops| - 1])
  }

  /** Building one more operation is one more step. */
  lemma BuiltNext(ops: seq<TransformOperation>, i: nat)
    requires i < |ops|
    ensures Built(ops[..i + 1]) == Step(Built(ops[..i]), ops[i])
  {
    assert ops[..i + 1][..i] == ops[..i];
  }

  /** `build` yields exactly one segment per operation, in operation order: the
      i-th carries the i-th operation's handler id and is empty exactly when that
      operation appends nothing, in particular when it is not `addVariable`. */
  lemma {:induction false} BuiltSegmentsFollowOperations(ops: seq<TransformOperation>)
    ensures forall i :: 0 <= i < |ops| ==> Built(ops).segments[i].handlerId == ops[i].handlerId
    ensures forall i :: 0 <= i < |ops| ==>
              (Built(ops).segments[i].span.start == Built(ops).segments[i].span.end <==> OperationText(ops[i]) == "")
    ensures forall i :: 0 <= i < |ops| && !IsAddVariableOperation(ops[i]) ==>
              Built(ops).segments[i].span.start == Built(ops).segments[i].span.end
    decreases |ops|
  {
    if ops != [] {
      var init := ops[..|ops| - 1];
      BuiltSegmentsFollowOperations(init);
      var prev := Built(init);
      assert Built(ops).segments == prev.segments + [Built(ops).segments[|ops| - 1]];
      forall i | 0 <= i < |ops| - 1 ensures ops[i] == init[i] && Built(ops).segments[i] == prev.segments[i] {
      }
    }
  }

  lemma BuiltSegmentHandler(ops: seq<TransformOperation>, i: nat)
    requires i < |ops|
    ensures Built(ops).segments[i].handlerId == ops[i].handlerId
  {
    BuiltSegmentsFollowOperations(ops);
  }

  /** The segments of a build tile its text, from 0 to the end. */
  lemma {:induction false} BuiltSegmentsTile(ops: seq<TransformOperation>)
    ensures Tiles(HandlerSpans(Built(ops).segments), 0, |Built(ops).text|)
    decreases |ops|
  {
    if ops != [] {
      var prev := Built(ops[..|ops| - 1]);
      BuiltSegmentsTile(ops[..|ops| - 1]);
      var seg := Built(ops).segments[|ops| - 1];
      assert Built(ops).segments == prev.segments + [seg];
      assert HandlerSpans(prev.segments + [seg]) == HandlerSpans(prev.segments) + [seg.span];
      TilesAppend(HandlerSpans(prev.segments), 0, |prev.text|, seg.span);
    }
  }

  /** `applyTransformation`. */
  method ApplyTransformation(sourceFile: SourceFile, operation: TransformOperation) returns (segment: HandlerSegment)
    modifies sourceFile
    ensures sourceFile.text == old(sourceFile.text) + OperationText(operation)
    ensures segment == HandlerSegment(operation.handlerId, Span(|old(sourceFile.text)|, |sourceFile.text|))
  {
    var startPos := sourceFile.End();
    if IsAddVariableOperation(operation) {
      sourceFile.AddVariableStatement(operation.config);
    }
    segment := HandlerSegment(operation.handlerId, Span(startPos, sourceFile.End()));
  }

  /** `SourceFileBuilder`: the queue of operations. */
  class SourceFileBuilder {
    var operations: seq<TransformOperation>

    constructor ()
      ensures operations == []
    {
      operations := [];
    }

    /** Queues the operation and returns the same builder, for chaining. */
    method AddTransformation(operation: TransformOperation) returns (self: SourceFileBuilder)
      modifies this
      ensures self == this
      ensures operations == old(operations) + [operation]
    {
      operations := operations + [operation];
      self := this;
    }

    /** Applies the queued operations in order to a fresh file. */
    method Build() returns (sourceFile: SourceFile, segments: seq<HandlerSegment>)
      ensures fresh(sourceFile)
      ensures BuildResult(sourceFile.text, segments) == Built(operations)
    {
      sourceFile := new SourceFile();
      segments := [];
      var ops := operations;
      var i := 0;
      while i < |ops|
        invariant 0 <= i <= |ops|
        invariant sourceFile.text == Built(ops[..i]).text && segments == Built(ops[..i]).segments
      {
        BuiltNext(ops, i);
        var segment := ApplyTransformation(sourceFile, ops[i]);
        segments := segments + [segment];
        i := i + 1;
      }
      assert ops[..i] == ops;
    }

  }

  function HandleNode1(): TransformOperation
  {
    TransformOperation("addVariable", "handleNode1", XStatement)
  }

  function HandleNode2(): TransformOperation
  {
    TransformOperation("addVariable", "handleNode2", YStatement)
  }

  /** `createTsSourceFileWithErrors`: the two demo handlers' operations, chained
      into one builder and built. */
  method CreateTsSourceFileWithErrors() returns (sourceFile: SourceFile, segments: seq<HandlerSegment>)
    ensures BuildResult(sourceFile.text, segments) == Built([HandleNode1(), HandleNode2()])
  {
    var builder := new SourceFileBuilder();
    var chained := builder.AddTransformation(HandleNode1());
    chained := chained.AddTransformation(HandleNode2());
    sourceFile, segments := builder.Build();
  }

  /** On the demo file every offset up to the end of the first statement, the
      shared boundary included, is attributed to `handleNode1`, every later offset
      up to the end of the text to `handleNode2`, and anything beyond to 'unknown'. */
  lemma DemoAttribution(offset: nat)
    ensures var built := Built([HandleNode1(), HandleNode2()]);
            var a := |StatementText(XStatement)|;
            && |built.text| == a + |StatementText(YStatement)|
            && (offset <= a ==> HandlerAt(built.segments, offset) == "handleNode1")
            && (a < offset <= |built.text| ==> HandlerAt(built.segments, offset) == "handleNode2")
            && (|built.text| < offset ==> HandlerAt(built.segments, offset) == "unknown")
  {
    var ops := [HandleNode1(), HandleNode2()];
    assert ops[..1] == [HandleNode1()];
    assert [HandleNode1()][..0] == [];
    var one := Step(BuildResult("", []), HandleNode1());
    assert Built([HandleNode1()]) == one;
    var built := Step(one, HandleNode2());
    assert Built(ops) == built;
    var a := |StatementText(XStatement)|;
    assert built.segments == [HandlerSegment("handleNode1", Span(0, a)), HandlerSegment("handleNode2", Span(a, |built.text|))];
    var spans := HandlerSpans(built.segments);
    assert spans == [Span(0, a), Span(a, |built.text|)];
    assert spans[1..] == [Span(a, |built.text|)];
    if offset <= a {
      assert FirstCovering(spans, offset) == Some(0);
    } else if offset <= |built.text| {
      assert FirstCovering(spans[1..], offset) == Some(0);
      assert FirstCovering(spans, offset) == Some(1);
    } else {
      assert FirstCovering(spans, offset) == None;
    }
  }

  // ------------------------------------------------------------- analysis

  /** What `analyzeTsCode` reports for one diagnostic. */
  datatype Report =
      /** A diagnostic missing a start or a length: category and message only. */
    | Unplaced(category: string, message: string)
      /** The offset, the handler found for it, and the trimmed line around it. */
    | Placed(offset: nat, handlerId: string, code: string, category: string, message: string)

  function ReportFor(text: string, segs: seq<HandlerSegment>, d: Diagnostic): Report
  {
    if d.start.None? || d.length.None? then Unplaced(CategoryText(d.category), d.message)
    else Placed(d.start.value, HandlerAt(segs, d.start.value), OffendingLine(text, d.start.value),
                CategoryText(d.category), d.message)
  }

  /** The body of the `forEach` for one diagnostic. */
  method AnalyzeDiagnostic(text: string, segments: seq<HandlerSegment>, diagnostic: Diagnostic) returns (report: Report)
    ensures report == ReportFor(text, segments, diagnostic)
  {
    var category := CategoryText(diagnostic.category);
    if diagnostic.start.None? || diagnostic.length.None? {
      return Unplaced(category, diagnostic.message);
    }
    var start := diagnostic.start.value;
    var lineStart, lineEnd := ScanLine(text, start);
    var fullLine := Trim(Slice(text, lineStart, lineEnd));
    var found := FirstCovering(HandlerSpans(segments), start);
    var handlerId := TagOrUnknown(if found.Some? then Some(segments[found.value].handlerId) else None);
    report := Placed(start, handlerId, fullLine, category, diagnostic.message);
  }

  /** `analyzeTsCode`: one report per diagnostic, in order. */
  method AnalyzeTsCode(text: string, segments: seq<HandlerSegment>, diagnostics: seq<Diagnostic>) returns (reports: seq<Report>)
    ensures reports == Reports(text, segments, diagnostics)
  {
    reports := [];
    var i := 0;
    while i < |diagnostics|
      invariant 0 <= i <= |diagnostics|
      invariant reports == Reports(text, segments, diagnostics[..i])
    {
      var report := AnalyzeDiagnostic(text, segments, diagnostics[i]);
      assert diagnostics[..i + 1][..i] == diagnostics[..i];
      reports := reports + [report];
      i := i + 1;
    }
    assert diagnostics[..i] == diagnostics;
  }

  /** The reports for a list of diagnostics, in order. */
  function Reports(text: string, segs: seq<HandlerSegment>, ds: seq<Diagnostic>): (r: seq<Report>)
    ensures |r| == |ds|
    decreases |ds|
  {
    if ds == [] then [] else Reports(text, segs, ds[..|ds| - 1]) + [ReportFor(text, segs, ds[|ds| - 1])]
  }

  /** Report `i` is the report for diagnostic `i`. */
  lemma {:induction false} ReportsAt(text: string, segs: seq<HandlerSegment>, ds: seq<Diagnostic>, i: nat)
    requires i < |ds|
    ensures Reports(text, segs, ds)[i] == ReportFor(text, segs, ds[i])
    decreases |ds|
  {
    var init := ds[..|ds| - 1];
    assert Reports(text, segs, ds) == Reports(text, segs, init) + [ReportFor(text, segs, ds[|ds| - 1])];
    if i < |ds| - 1 {
      ReportsAt(text, segs, init, i);
      assert init[i] == ds[i];
    }
  }


  /** Attribution of a built file: a diagnostic starting in `(start, end]` of the
      i-th operation's segment names that operation's handler (when its id is not
      empty), and its code line holds no line break. */
  lemma BuiltAttribution(ops: seq<TransformOperation>, d: Diagnostic, i: nat)
    requires d.start.Some? && d.length.Some?
    requires i < |ops| && ops[i].handlerId != ""
    requires Built(ops).segments[i].span.start < d.start.value <= Built(ops).segments[i].span.end
    ensures ReportFor(Built(ops).text, Built(ops).segments, d).handlerId == ops[i].handlerId
    ensures forall k :: 0 <= k < |ReportFor(Built(ops).text, Built(ops).segments, d).code| ==>
              ReportFor(Built(ops).text, Built(ops).segments, d).code[k] != '\n'
  {
    var b := Built(ops);
    BuiltSegmentHandler(ops, i);
    BuiltSegmentsTile(ops);
    TiledHandlerAt(b.segments, 0, |b.text|, i, d.start.value);
    OffendingLineHasNoBreak(b.text, d.start.value);
    assert NoBreak(OffendingLine(b.text, d.start.value));
  }
}
