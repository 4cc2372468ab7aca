/** The provenance variant of `src/morph-analysis-using-sourcemap.ts`: two handlers
    each append a statement and push the range they wrote; analysis maps a
    diagnostic's start to the first range holding it. */
module SourceMapAnalysis {
  import opened Basics
  import opened Morph
  import opened Provenance

  /** The `codeSegments` array the handlers push to. */
  class SegmentLog {
    var segments: seq<HandlerSegment>

    constructor ()
      ensures segments == []
    {
      segments := [];
    }
  }

  /** `handleNode1` and `handleNode2`: append one statement, then push the range
      between the file's end before and after it. */
  method HandleNode(sourceFile: SourceFile, log: SegmentLog, handlerId: string, st: VariableStatement)
    modifies sourceFile, log
    ensures sourceFile.text == old(sourceFile.text) + StatementText(st)
    ensures log.segments == old(log.segments) + [HandlerSegment(handlerId, Span(|old(sourceFile.text)|, |sourceFile.text|))]
  {
    var startPos := sourceFile.End();
    sourceFile.AddVariableStatement(st);
    log.segments := log.segments + [HandlerSegment(handlerId, Span(startPos, sourceFile.End()))];
  }

  /** `createTsSourceFileWithErrors`: one segment per handler, in call order; the
      second starts exactly where the first ends. */
  method CreateTsSourceFileWithErrors() returns (sourceFile: SourceFile, segments: seq<HandlerSegment>)
    ensures sourceFile.text == StatementText(XStatement) + StatementText(YStatement)
    ensures segments == [HandlerSegment("handleNode1", Span(0, |StatementText(XStatement)|)),
                         HandlerSegment("handleNode2", Span(|StatementText(XStatement)|, |sourceFile.text|))]
  {
    sourceFile := new SourceFile();
    var log := new SegmentLog();
    HandleNode(sourceFile, log, "handleNode1", XStatement);
    HandleNode(sourceFile, log, "handleNode2", YStatement);
    segments := log.segments;
  }

  /** What `analyzeTsCode` reports for one diagnostic. */
  datatype Report =
      /** A diagnostic without a position: category and message only. */
    | Unplaced(category: string, message: string)
    | Placed(offset: nat, handlerId: string, category: string, message: string)

  function ReportFor(segs: seq<HandlerSegment>, d: Diagnostic): Report
  {
    if d.start.None? then Unplaced(CategoryText(d.category), d.message)
    else Placed(d.start.value, HandlerAt(segs, d.start.value), CategoryText(d.category), d.message)
  }

  /** `analyzeTsCode`: one report per diagnostic, in order. */
  method AnalyzeTsCode(segments: seq<HandlerSegment>, diagnostics: seq<Diagnostic>) returns (reports: seq<Report>)
    ensures |reports| == |diagnostics|
    ensures forall i :: 0 <= i < |diagnostics| ==> reports[i] == ReportFor(segments, diagnostics[i])
  {
    reports := [];
    var i := 0;
    while i < |diagnostics|
      invariant 0 <= i <= |diagnostics|
      invariant |reports| == i
      invariant forall k :: 0 <= k < i ==> reports[k] == ReportFor(segments, diagnostics[k])
    {
      var diagnostic := diagnostics[i];
      var category := CategoryText(diagnostic.category);
      var report: Report;
      if diagnostic.start.Some? {
        var pos := diagnostic.start.value;
        var found := FirstCovering(HandlerSpans(segments), pos);
        var handlerId := TagOrUnknown(if found.Some? then Some(segments[found.value].handlerId) else None);
        report := Placed(pos, handlerId, category, diagnostic.message);
      } else {
        report := Unplaced(category, diagnostic.message);
      }
      reports := reports + [report];
      i := i + 1;
    }
  }

  /** Attribution over two back-to-back segments `[0, a]` and `[a, b]`: up to and
      including the shared boundary `a` the first handler is named, after it the
      second, and beyond `b` 'unknown'. */
  lemma TwoSegmentAttribution(id1: string, id2: string, a: nat, b: nat, d: Diagnostic)
    requires id1 != "" && id2 != "" && a <= b && d.start.Some?
    ensures var segs := [HandlerSegment(id1, Span(0, a)), HandlerSegment(id2, Span(a, b))];
            && (d.start.value <= a ==> ReportFor(segs, d).handlerId == id1)
            && (a < d.start.value <= b ==> ReportFor(segs, d).handlerId == id2)
            && (b < d.start.value ==> ReportFor(segs, d).handlerId == "unknown")
  {
    var segs := [HandlerSegment(id1, Span(0, a)), HandlerSegment(id2, Span(a, b))];
    var spans := HandlerSpans(segs);
    assert spans == [Span(0, a), Span(a, b)];
    assert spans[1..] == [Span(a, b)];
    var offset := d.start.value;
    if offset <= a {
      assert FirstCovering(spans, offset) == Some(0);
    } else if offset <= b {
      assert FirstCovering(spans[1..], offset) == Some(0);
      assert FirstCovering(spans, offset) == Some(1);
    } else {
      assert FirstCovering(spans, offset) == None;
    }
  }
}
