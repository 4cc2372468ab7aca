/** Provenance bookkeeping shared by every generator variant: the recorded text
    ranges, the first-match lookup that attributes a diagnostic offset to a range,
    the facts that hold when ranges are recorded back to back, the scan that
    recovers the line around an offset, and the diagnostics the compiler reports. */
module Provenance {
  import opened Basics

  /** A recorded range of the generated text, `[start, end]`. Lookups treat it as
      closed at both ends. */
  datatype Span = Span(start: nat, end: nat)

  predicate Covers(s: Span, offset: int)
  {
    s.start <= offset <= s.end
  }

  /** `spans.find(s => offset >= s.start && offset <= s.end)`, as an index. */
  function FirstCovering(spans: seq<Span>, offset: int): (r: Option<nat>)
    ensures r.Some? ==> r.value < |spans| && Covers(spans[r.value], offset)
    ensures r.Some? ==> forall j :: 0 <= j < r.value ==> !Covers(spans[j], offset)
    ensures r.None? <==> forall j :: 0 <= j < |spans| ==> !Covers(spans[j], offset)
    decreases |spans|
  {
    if spans == [] then None
    else if Covers(spans[0], offset) then Some(0)
    else
      match FirstCovering(spans[1..], offset)
      case None => None
      case Some(k) => Some(k + 1)
  }

  /** `found?.tag || 'unknown'`: a missing match and an empty tag both read 'unknown'. */
  function TagOrUnknown(found: Option<string>): string
  {
    if found.Some? && found.value != "" then found.value else "unknown"
  }

  /** The `CodeSegment` of the variants whose segments carry only a handler id. */
  datatype HandlerSegment = HandlerSegment(handlerId: string, span: Span)

  /** The ranges of handler segments, in order. */
  function HandlerSpans(segs: seq<HandlerSegment>): (r: seq<Span>)
    ensures |r| == |segs|
    ensures forall i :: 0 <= i < |segs| ==> r[i] == segs[i].span
  {
    seq(|segs|, i requires 0 <= i < |segs| => segs[i].span)
  }

  /** `segments.find(s => offset >= s.start && offset <= s.end)?.handlerId || 'unknown'`. */
  function HandlerAt(segs: seq<HandlerSegment>, offset: int): (r: string)
    ensures r == "unknown" || exists k :: 0 <= k < |segs| && Covers(segs[k].span, offset) && r == segs[k].handlerId
    ensures (forall k :: 0 <= k < |segs| ==> !Covers(segs[k].span, offset)) ==> r == "unknown"
  {
    match FirstCovering(HandlerSpans(segs), offset)
    case None => TagOrUnknown(None)
    case Some(k) => TagOrUnknown(Some(segs[k].handlerId))
  }

  // ------------------------------------------------------------ tiling

  /** The spans were recorded back to back: the first starts at `from`, each
      starts where the previous one ended, none is inverted, the last ends at `to`. */
  predicate Tiles(spans: seq<Span>, from: nat, to: nat)
    decreases |spans|
  {
    if spans == [] then from == to
    else spans[0].start == from && spans[0].start <= spans[0].end && Tiles(spans[1..], spans[0].end, to)
  }

  /** Recording one more span that starts at the current end keeps the tiling. */
  lemma {:induction false} TilesAppend(spans: seq<Span>, from: nat, to: nat, s: Span)
    requires Tiles(spans, from, to)
    requires s.start == to <= s.end
    ensures Tiles(spans + [s], from, s.end)
  {
    if spans != [] {
      assert (spans + [s])[1..] == spans[1..] + [s];
      TilesAppend(spans[1..], spans[0].end, to, s);
    }
  }

  /** In a tiling the spans are ordered: every span lies in `[from, to]` and an
      earlier span ends no later than a later one starts. */
  lemma {:induction false} TilesOrdered(spans: seq<Span>, from: nat, to: nat)
    requires Tiles(spans, from, to)
    ensures from <= to
    ensures forall k :: 0 <= k < |spans| ==> from <= spans[k].start <= spans[k].end <= to
    ensures forall j, k :: 0 <= j < k < |spans| ==> spans[j].end <= spans[k].start
  {
    if spans != [] {
      TilesOrdered(spans[1..], spans[0].end, to);
      forall k | 1 <= k < |spans| ensures spans[0].end <= spans[k].start {
        assert spans[k] == spans[1..][k - 1];
      }
      forall j, k | 1 <= j < k < |spans| ensures spans[j].end <= spans[k].start {
        assert spans[j] == spans[1..][j - 1] && spans[k] == spans[1..][k - 1];
      }
    }
  }

  /** Attribution over a tiling: an offset in `(start, end]` of span k goes to k.
      In particular an offset on the boundary shared by spans k and k + 1 goes to
      the earlier span k, provided k is not empty. */
  lemma TiledAttribution(spans: seq<Span>, from: nat, to: nat, k: nat, offset: int)
    requires Tiles(spans, from, to)
    requires k < |spans| && spans[k].start < offset <= spans[k].end
    ensures FirstCovering(spans, offset) == Some(k)
  {
    TilesOrdered(spans, from, to);
  }

  /** Attribution over tiled handler segments: an offset in `(start, end]` of
      segment k names k's handler, or 'unknown' when that id is empty, and lies
      inside the tiled range. */
  lemma TiledHandlerAt(segs: seq<HandlerSegment>, from: nat, to: nat, k: nat, offset: int)
    requires Tiles(HandlerSpans(segs), from, to)
    requires k < |segs| && segs[k].span.start < offset <= segs[k].span.end
    ensures HandlerAt(segs, offset) == TagOrUnknown(Some(segs[k].handlerId))
    ensures offset <= to
  {
    var spans := HandlerSpans(segs);
    TiledAttribution(spans, from, to, k, offset);
    TilesOrdered(spans, from, to);
    assert spans[k] == segs[k].span;
  }

  /** Attribution over a tiling: the first offset goes to the first span. */
  lemma TiledAttributionAtStart(spans: seq<Span>, from: nat, to: nat)
    requires Tiles(spans, from, to) && spans != []
    ensures FirstCovering(spans, from) == Some(0)
  {
  }

  /** Attribution over a tiling: every offset in `[from, to]` is attributed to
      some span, and every offset outside it to none. */
  lemma {:induction false} TiledCoverage(spans: seq<Span>, from: nat, to: nat, offset: int)
    requires Tiles(spans, from, to)
    ensures FirstCovering(spans, offset).Some? <==> (spans != [] && from <= offset <= to)
  {
    TilesOrdered(spans, from, to);
    if spans != [] {
      if from <= offset <= to {
        if offset > spans[0].end {
          TiledCoverage(spans[1..], spans[0].end, to, offset);
          var k :| 0 <= k < |spans[1..]| && Covers(spans[1..][k], offset);
          assert Covers(spans[k + 1], offset);
        } else {
          assert Covers(spans[0], offset);
        }
      } else {
        forall j | 0 <= j < |spans| ensures !Covers(spans[j], offset) {
        }
      }
    }
  }

  // ------------------------------------------------------------ line scan

  predicate NewlineAt(text: string, i: int)
  {
    0 <= i < |text| && text[i] == '\n'
  }

  /** Where the line holding `offset` starts: step left while the previous
      character is not a line break. */
  function LineStart(text: string, offset: nat): (r: nat)
    ensures r <= offset
    decreases offset
  {
    if offset > 0 && !NewlineAt(text, offset - 1) then LineStart(text, offset - 1) else offset
  }

  /** Where the line holding `offset` ends: step right while inside the text and
      not on a line break. */
  function LineEnd(text: string, offset: nat): (r: nat)
    ensures offset <= r
    decreases |text| - offset
  {
    if offset < |text| && text[offset] != '\n' then LineEnd(text, offset + 1) else offset
  }

  /** The scanned bounds delimit the line holding the offset: no line break lies
      between them, the start is 0 or follows a line break, and the end is the end
      of the text or sits on a line break. */
  lemma {:induction false} LineBounds(text: string, offset: nat)
    ensures LineStart(text, offset) <= offset <= LineEnd(text, offset)
    ensures forall i :: LineStart(text, offset) <= i < LineEnd(text, offset) ==> !NewlineAt(text, i)
    ensures LineStart(text, offset) == 0 || NewlineAt(text, LineStart(text, offset) - 1)
    ensures LineEnd(text, offset) >= |text| || text[LineEnd(text, offset)] == '\n'
    ensures offset <= |text| ==> LineEnd(text, offset) <= |text|
  {
    LineStartBounds(text, offset);
    LineEndBounds(text, offset);
  }

  lemma {:induction false} LineStartBounds(text: string, offset: nat)
    ensures forall i :: LineStart(text, offset) <= i < offset ==> !NewlineAt(text, i)
    ensures LineStart(text, offset) == 0 || NewlineAt(text, LineStart(text, offset) - 1)
    decreases offset
  {
    if offset > 0 && !NewlineAt(text, offset - 1) {
      LineStartBounds(text, offset - 1);
    }
  }

  lemma {:induction false} LineEndBounds(text: string, offset: nat)
    ensures forall i :: offset <= i < LineEnd(text, offset) ==> !NewlineAt(text, i)
    ensures LineEnd(text, offset) >= |text| || text[LineEnd(text, offset)] == '\n'
    ensures offset <= |text| ==> LineEnd(text, offset) <= |text|
    decreases |text| - offset
  {
    if offset < |text| && text[offset] != '\n' {
      LineEndBounds(text, offset + 1);
    }
  }

  /** The two `while` loops that step `lineStart` down and `lineEnd` up from the
      diagnostic's offset. */
  method ScanLine(text: string, offset: nat) returns (lineStart: nat, lineEnd: nat)
    ensures lineStart == LineStart(text, offset) && lineEnd == LineEnd(text, offset)
  {
    lineStart := offset;
    while lineStart > 0 && !NewlineAt(text, lineStart - 1)
      invariant lineStart <= offset
      invariant LineStart(text, lineStart) == LineStart(text, offset)
    {
      lineStart := lineStart - 1;
    }
    lineEnd := offset;
    while lineEnd < |text| && text[lineEnd] != '\n'
      invariant offset <= lineEnd
      invariant LineEnd(text, lineEnd) == LineEnd(text, offset)
      decreases |text| - lineEnd
    {
      lineEnd := lineEnd + 1;
    }
  }

  /** `fullText.slice(lineStart, lineEnd).trim()`: the offending line. */
  function OffendingLine(text: string, offset: nat): string
  {
    Trim(Slice(text, LineStart(text, offset), LineEnd(text, offset)))
  }

  /** The text holds no line break. */
  predicate NoBreak(s: string)
  {
    forall k :: 0 <= k < |s| ==> s[k] != '\n'
  }

  /** The offending line holds no line break. */
  lemma OffendingLineHasNoBreak(text: string, offset: nat)
    requires offset <= |text|
    ensures NoBreak(OffendingLine(text, offset))
  {
    LineBounds(text, offset);
    var a, b := LineStart(text, offset), LineEnd(text, offset);
    var line := Slice(text, a, b);
    assert line == text[a..b];
    forall k | 0 <= k < |line| ensures line[k] != '\n' {
      assert line[k] == text[a + k] && !NewlineAt(text, a + k);
    }
    TrimKeepsNoBreak(line);
  }

  /** Trimming a text without line breaks leaves none. */
  lemma TrimKeepsNoBreak(s: string)
    requires NoBreak(s)
    ensures NoBreak(Trim(s))
  {
    TrimIsSlice(s);
    var i := |s| - |TrimStart(s)|;
    SliceKeepsNoBreak(s, i, i + |Trim(s)|);
  }

  lemma SliceKeepsNoBreak(s: string, i: nat, j: nat)
    requires i <= j <= |s| && NoBreak(s)
    ensures NoBreak(s[i..j])
  {
    forall k | 0 <= k < j - i ensures s[i..j][k] != '\n' {
      assert s[i..j][k] == s[i + k];
    }
  }


  // ------------------------------------------------------------ diagnostics

  datatype Category = Warning | Error | Suggestion | Message

  /** A diagnostic as the compiler reports it: its start and length may be
      undefined. */
  datatype Diagnostic = Diagnostic(start: Option<nat>, length: Option<nat>, category: Category, message: string)

  /** `category === DiagnosticCategory.Error ? 'Error' : 'Warning'`. */
  function CategoryText(c: Category): string
  {
    if c == Error then "Error" else "Warning"
  }
}
