/** The provenance variant of `src/morph-locate-detail-property.ts`: three handlers
    append one variable statement each and record the range they wrote; the
    object handler also records, for each configured property, where its
    `name: value` text first occurs in what it wrote. Analysis attributes a
    diagnostic to a segment, then to a property of that segment, and recovers the
    line around it. */
module LocateDetailProperty {
  import opened Basics
  import opened Morph
  import opened Provenance

  /** One configured property of the object node (`objectConfig.properties`). */
  datatype PropertySpec = PropertySpec(name: string, type_: string, value: string)

  /** `PropertyConfig`: a located property, with the range of its text. */
  datatype PropertyConfig = PropertyConfig(name: string, type_: string, value: string, position: Span)

  /** `CodeSegment` of this variant; only the object handler sets `nodeId` and
      `properties`. */
  datatype DetailSegment = DetailSegment(handlerId: string, nodeId: Option<string>, span: Span, properties: Option<seq<PropertyConfig>>)

  // ------------------------------------------------------------- indexOf

  predicate OccursAt(s: string, p: string, j: int)
  {
    0 <= j && j + |p| <= |s| && s[j..j + |p|] == p
  }

  predicate Occurs(s: string, p: string)
  {
    exists j :: 0 <= j <= |s| && OccursAt(s, p, j)
  }

  /** `s.indexOf(p)`: a position where `p` fits, or -1; `IndexOfFound`,
      `IndexOfFirst` and `IndexOfMissing` show that `p` occurs there, that it is
      the first occurrence, and that -1 means there is none. */
  function IndexOf(s: string, p: string): (r: int)
    ensures -1 <= r
    ensures r >= 0 ==> r + |p| <= |s|
  {
    IndexFrom(s, p, 0)
  }

  function IndexFrom(s: string, p: string, i: nat): (r: int)
    ensures -1 <= r
    ensures r >= 0 ==> i <= r && r + |p| <= |s|
    decreases |s| - i
  {
    if i + |p| > |s| then -1
    else if s[i..i + |p|] == p then i
    else IndexFrom(s, p, i + 1)
  }

  lemma {:induction false} IndexFromFound(s: string, p: string, i: nat)
    ensures IndexFrom(s, p, i) >= 0 ==> OccursAt(s, p, IndexFrom(s, p, i))
    decreases |s| - i
  {
    if i + |p| <= |s| && s[i..i + |p|] != p {
      IndexFromFound(s, p, i + 1);
    }
  }

  /** `indexOf` answers a position where `p` occurs. */
  lemma IndexOfFound(s: string, p: string)
    ensures IndexOf(s, p) >= 0 ==> OccursAt(s, p, IndexOf(s, p))
  {
    IndexFromFound(s, p, 0);
  }

  /** No occurrence from `i` on comes before the one `IndexFrom` finds, and when
      it finds none there is none from `i` on. */
  lemma {:induction false} IndexFromFirst(s: string, p: string, i: nat, j: nat)
    requires i <= j && OccursAt(s, p, j)
    ensures 0 <= IndexFrom(s, p, i) <= j
    decreases j - i
  {
    if i + |p| <= |s| && s[i..i + |p|] != p {
      IndexFromFirst(s, p, i + 1, j);
    }
  }

  /** `indexOf` finds the first occurrence. */
  lemma IndexOfFirst(s: string, p: string, j: nat)
    requires OccursAt(s, p, j)
    ensures 0 <= IndexOf(s, p) <= j
  {
    IndexFromFirst(s, p, 0, j);
  }

  /** `indexOf` answers -1 exactly when `p` does not occur. */
  lemma IndexOfMissing(s: string, p: string)
    ensures IndexOf(s, p) == -1 <==> !Occurs(s, p)
  {
    if Occurs(s, p) {
      var j :| 0 <= j <= |s| && OccursAt(s, p, j);
      IndexOfFirst(s, p, j);
    }
    var r := IndexOf(s, p);
    IndexOfFound(s, p);
    if r >= 0 {
      assert r <= |s| && OccursAt(s, p, r);
    }
  }

  // --------------------------------------------------------- the handlers

  /** The `codeSegments` array the handlers push to. */
  class SegmentLog {
    var segments: seq<DetailSegment>

    constructor ()
      ensures segments == []
    {
      segments := [];
    }
  }

  /** `handleNode1` and `handleNode2`: append one statement and record the range
      between the file's end before and after it. */
  method HandleStatement(sourceFile: SourceFile, log: SegmentLog, handlerId: string, st: VariableStatement)
    modifies sourceFile, log
    ensures sourceFile.text == old(sourceFile.text) + StatementText(st)
    ensures log.segments == old(log.segments) + [DetailSegment(handlerId, None, Span(|old(sourceFile.text)|, |sourceFile.text|), None)]
  {
    var startPos := sourceFile.End();
    sourceFile.AddVariableStatement(st);
    log.segments := log.segments + [DetailSegment(handlerId, None, Span(startPos, sourceFile.End()), None)];
  }

  /** The object node's configuration (the first value is deliberately a string
      where a boolean is declared). */
  const ObjectConfig: seq<PropertySpec> :=
    [PropertySpec("isActive", "boolean", "\"true\""), PropertySpec("name", "string", "\"John\"")]

  const ObjectType: string := "{ isActive: boolean; name: string }"

  /** `${prop.name}: ${prop.value}`. */
  function PropText(p: PropertySpec): string
  {
    p.name + ": " + p.value
  }

  function PropTexts(config: seq<PropertySpec>): (r: seq<string>)
    ensures |r| == |config|
    ensures forall i :: 0 <= i < |config| ==> r[i] == PropText(config[i])
  {
    seq(|config|, i requires 0 <= i < |config| => PropText(config[i]))
  }

  /** The object literal: the `name: value` entries in configuration order,
      joined by a comma, a line break and eight spaces. Every entry occurs in it. */
  function ObjectLiteral(config: seq<PropertySpec>): (r: string)
    ensures forall i :: 0 <= i < |config| ==> Occurs(r, PropText(config[i]))
  {
    var head := "{\n        ";
    var body := Join(PropTexts(config), ",\n        ");
    var tail := "\n    }";
    forall i | 0 <= i < |config| ensures Occurs(head + body + tail, PropText(config[i])) {
      JoinHasPart(PropTexts(config), ",\n        ", i);
      OccursInside(head, body, tail, PropText(config[i]));
    }
    head + body + tail
  }

  function ObjectStatement(config: seq<PropertySpec>): VariableStatement
  {
    VariableStatement(Const, [Declaration("obj", Some(ObjectType), ObjectLiteral(config))])
  }

  /** Every part of a join occurs in it. */
  lemma {:induction false} JoinHasPart(parts: seq<string>, sep: string, i: nat)
    requires i < |parts|
    ensures Occurs(Join(parts, sep), parts[i])
    decreases |parts|
  {
    var s := Join(parts, sep);
    if |parts| == 1 {
      assert OccursAt(s, parts[i], 0);
    } else if i == 0 {
      assert s[0..|parts[0]|] == parts[0];
      assert OccursAt(s, parts[0], 0);
    } else {
      JoinHasPart(parts[1..], sep, i - 1);
      OccursInside(parts[0] + sep, Join(parts[1..], sep), [], parts[i]);
      assert (parts[0] + sep) + Join(parts[1..], sep) + [] == s;
    }
  }

  /** An occurrence in `b` is an occurrence in `a + b + c`, shifted by `|a|`. */
  lemma OccursInside(a: string, b: string, c: string, p: string)
    requires Occurs(b, p)
    ensures Occurs(a + b + c, p)
  {
    var j :| 0 <= j <= |b| && OccursAt(b, p, j);
    assert j + |p| <= |b|;
    var s := a + b + c;
    assert s[|a| + j..|a| + j + |p|] == b[j..j + |p|];
    assert OccursAt(s, p, |a| + j);
  }

  /** The properties the `forEach` records, for the first `n` configured ones: a
      property whose text is found in the added code gets the range of its first
      occurrence, shifted by `startPos`; one that is not found is left out. */
  function Locate(added: string, startPos: nat, config: seq<PropertySpec>, n: nat): seq<PropertyConfig>
    requires n <= |config|
    decreases n
  {
    if n == 0 then [] else Locate(added, startPos, config, n - 1) + LocateOne(added, startPos, config[n - 1])
  }

  lemma LocateNext(added: string, startPos: nat, config: seq<PropertySpec>, i: nat)
    requires i < |config|
    ensures Locate(added, startPos, config, i + 1) == Locate(added, startPos, config, i) + LocateOne(added, startPos, config[i])
  {
  }

  /** What the `forEach` records for one configured property. */
  function LocateOne(added: string, startPos: nat, c: PropertySpec): seq<PropertyConfig>
  {
    var idx := IndexOf(added, PropText(c));
    if idx == -1 then []
    else [PropertyConfig(c.name, c.type_, c.value, Span(startPos + idx, startPos + idx + |PropText(c)|))]
  }

  /** A located range holds exactly `name: value`, lies inside the added code, and
      is the first occurrence at or after `startPos`. */
  predicate WellLocated(text: string, startPos: nat, p: PropertyConfig)
  {
    var t := p.name + ": " + p.value;
    && startPos <= p.position.start
    && p.position.end == p.position.start + |t|
    && p.position.end <= |text|
    && text[p.position.start..p.position.end] == t
    && forall j :: startPos <= j < p.position.start ==> !OccursAt(text, t, j)
  }

  /** Every property in `ps` is well located. */
  predicate AllWellLocated(text: string, startPos: nat, ps: seq<PropertyConfig>)
  {
    forall k :: 0 <= k < |ps| ==> WellLocated(text, startPos, ps[k])
  }

  /** Every property `Locate` records holds its own text at its first occurrence
      in the added code. */
  lemma {:induction false} LocateSound(text: string, startPos: nat, config: seq<PropertySpec>, n: nat)
    requires startPos <= |text| && n <= |config|
    ensures AllWellLocated(text, startPos, Locate(text[startPos..], startPos, config, n))
    decreases n
  {
    if n > 0 {
      LocateSound(text, startPos, config, n - 1);
      LocateOneSound(text, startPos, config[n - 1]);
      LocateNext(text[startPos..], startPos, config, n - 1);
      WellLocatedAppend(text, startPos, Locate(text[startPos..], startPos, config, n - 1),
                        LocateOne(text[startPos..], startPos, config[n - 1]));
    }
  }

  lemma WellLocatedAppend(text: string, startPos: nat, a: seq<PropertyConfig>, b: seq<PropertyConfig>)
    requires AllWellLocated(text, startPos, a) && AllWellLocated(text, startPos, b)
    ensures AllWellLocated(text, startPos, a + b)
  {
    forall k | 0 <= k < |a + b| ensures WellLocated(text, startPos, (a + b)[k]) {
      if k >= |a| {
        assert (a + b)[k] == b[k - |a|];
      }
    }
  }

  /** What `LocateOne` records is well located. */
  lemma LocateOneSound(text: string, startPos: nat, c: PropertySpec)
    requires startPos <= |text|
    ensures AllWellLocated(text, startPos, LocateOne(text[startPos..], startPos, c))
  {
    var added := text[startPos..];
    var t := PropText(c);
    var idx := IndexOf(added, t);
    IndexOfFound(added, t);
    if idx != -1 {
      var p := PropertyConfig(c.name, c.type_, c.value, Span(startPos + idx, startPos + idx + |t|));
      assert text[p.position.start..p.position.end] == added[idx..idx + |t|];
      forall j | startPos <= j < p.position.start ensures !OccursAt(text, t, j) {
        if OccursAt(text, t, j) {
          NoEarlierOccurrence(text, startPos, t, j);
        }
      }
      assert WellLocated(text, startPos, p);
    }
  }

  /** An occurrence at or after `startPos` is one in the added code, so none
      precedes the one `indexOf` finds there. */
  lemma NoEarlierOccurrence(text: string, startPos: nat, t: string, j: nat)
    requires startPos <= j && OccursAt(text, t, j)
    ensures startPos + IndexOf(text[startPos..], t) <= j
  {
    var added := text[startPos..];
    assert added[j - startPos..j - startPos + |t|] == text[j..j + |t|];
    IndexOfFirst(added, t, j - startPos);
  }

  /** The first `n` recorded properties carry the first `n` configured names. */
  predicate NamedAfter(ps: seq<PropertyConfig>, config: seq<PropertySpec>)
  {
    |ps| <= |config| && forall i :: 0 <= i < |ps| ==> ps[i].name == config[i].name
  }

  /** A property whose text occurs in the added code is recorded; with every
      configured text present, one property per entry is recorded, in order. */
  lemma {:induction false} LocateComplete(added: string, startPos: nat, config: seq<PropertySpec>, n: nat)
    requires n <= |config|
    requires forall i :: 0 <= i < n ==> IndexOf(added, PropText(config[i])) >= 0
    ensures |Locate(added, startPos, config, n)| == n
    ensures NamedAfter(Locate(added, startPos, config, n), config)
    decreases n
  {
    if n > 0 {
      LocateComplete(added, startPos, config, n - 1);
      LocateOneFound(added, startPos, config[n - 1]);
      LocateNext(added, startPos, config, n - 1);
      NamedAppend(Locate(added, startPos, config, n - 1), LocateOne(added, startPos, config[n - 1]), config);
    }
  }

  lemma NamedAppend(ps: seq<PropertyConfig>, one: seq<PropertyConfig>, config: seq<PropertySpec>)
    requires NamedAfter(ps, config) && |ps| < |config|
    requires |one| == 1 && one[0].name == config[|ps|].name
    ensures NamedAfter(ps + one, config)
  {
    forall i | 0 <= i < |ps + one| ensures (ps + one)[i].name == config[i].name {
      if i == |ps| {
        assert (ps + one)[i] == one[0];
      }
    }
  }

  /** A property whose text occurs is recorded once, under its own name. */
  lemma LocateOneFound(added: string, startPos: nat, c: PropertySpec)
    requires IndexOf(added, PropText(c)) >= 0
    ensures |LocateOne(added, startPos, c)| == 1 && LocateOne(added, startPos, c)[0].name == c.name
  {
  }

  /** The `forEach` over the configured properties: each one whose text occurs in
      the added code is recorded at its first occurrence, shifted by `startPos`. */
  method LocateProperties(addedCode: string, startPos: nat, config: seq<PropertySpec>) returns (properties: seq<PropertyConfig>)
    ensures properties == Locate(addedCode, startPos, config, |config|)
  {
    properties := [];
    var i := 0;
    while i < |config|
      invariant 0 <= i <= |config|
      invariant properties == Locate(addedCode, startPos, config, i)
    {
      var propText := PropText(config[i]);
      var propIndex := IndexOf(addedCode, propText);
      LocateNext(addedCode, startPos, config, i);
      if propIndex != -1 {
        var entry := PropertyConfig(config[i].name, config[i].type_, config[i].value,
                                    Span(startPos + propIndex, startPos + propIndex + |propText|));
        assert LocateOne(addedCode, startPos, config[i]) == [entry];
        properties := properties + [entry];
      } else {
        assert LocateOne(addedCode, startPos, config[i]) == [];
        assert properties + [] == properties;
      }
      i := i + 1;
    }
  }

  /** `handleObjectNode` for a given configuration: append the object statement,
      then locate each property's text in what was added. */
  method HandleObjectNode(sourceFile: SourceFile, log: SegmentLog, config: seq<PropertySpec>)
    modifies sourceFile, log
    ensures sourceFile.text == old(sourceFile.text) + StatementText(ObjectStatement(config))
    ensures log.segments == old(log.segments)
              + [DetailSegment("handleObjectNode", Some("obj_001"), Span(|old(sourceFile.text)|, |sourceFile.text|),
                               Some(Locate(sourceFile.text[|old(sourceFile.text)|..], |old(sourceFile.text)|, config, |config|)))]
    ensures PropertiesLocated(sourceFile.text, log.segments[|log.segments| - 1], config)
  {
    var startPos := sourceFile.End();
    sourceFile.AddVariableStatement(ObjectStatement(config));
    var fullText := sourceFile.FullText();
    var addedCode := Slice(fullText, startPos, |fullText|);
    assert addedCode == sourceFile.text[startPos..];
    var properties := LocateProperties(addedCode, startPos, config);
    ObjectPropertiesLocated(sourceFile.text, startPos, config);
    log.segments := log.segments + [DetailSegment("handleObjectNode", Some("obj_001"), Span(startPos, sourceFile.End()), Some(properties))];
  }

  /** The segment holds one located property per configured one, in order, each
      inside the text from the segment's start and holding its own text. */
  predicate PropertiesLocated(text: string, seg: DetailSegment, config: seq<PropertySpec>)
  {
    && seg.properties.Some? && |seg.properties.value| == |config|
    && forall k :: 0 <= k < |config| ==>
         WellLocated(text, seg.span.start, seg.properties.value[k]) && seg.properties.value[k].name == config[k].name
  }

  /** The ranges of this variant's segments, whose record type differs from the
      other variants' as in the source. */
  function SegmentSpans(segs: seq<DetailSegment>): (r: seq<Span>)
    ensures |r| == |segs|
    ensures forall i :: 0 <= i < |segs| ==> r[i] == segs[i].span
  {
    seq(|segs|, i requires 0 <= i < |segs| => segs[i].span)
  }

  /** Every configured property of the object statement is found in it, so each
      is recorded, in order, holding its own text at its first occurrence. */
  lemma ObjectPropertiesLocated(text: string, startPos: nat, config: seq<PropertySpec>)
    requires startPos <= |text| && text[startPos..] == StatementText(ObjectStatement(config))
    ensures var ps := Locate(text[startPos..], startPos, config, |config|);
            |ps| == |config| && AllWellLocated(text, startPos, ps) && NamedAfter(ps, config)
  {
    var added := text[startPos..];
    forall i | 0 <= i < |config| ensures IndexOf(added, PropText(config[i])) >= 0 {
      OccursInStatement(config, PropText(config[i]));
      IndexOfMissing(added, PropText(config[i]));
    }
    LocateSound(text, startPos, config, |config|);
    LocateComplete(added, startPos, config, |config|);
  }

  /** What occurs in the object literal occurs in the object statement. */
  lemma OccursInStatement(config: seq<PropertySpec>, p: string)
    requires Occurs(ObjectLiteral(config), p)
    ensures Occurs(StatementText(ObjectStatement(config)), p)
  {
    var st := ObjectStatement(config);
    var d := st.declarations[0];
    var dt := DeclarationText(d);
    var head := d.name + ": " + ObjectType + " = ";
    assert dt == head + ObjectLiteral(config) + [];
    OccursInside(head, ObjectLiteral(config), [], p);
    assert DeclarationTexts(st.declarations) == [dt];
    assert Join([dt], ", ") == dt;
    OccursInside(KindKeyword(st.kind) + " ", dt, ";\n", p);
  }

  /** Three spans recorded back to back from 0 tile the text they end at. */
  lemma ThreeTile(a: nat, b: nat, c: nat, segs: seq<DetailSegment>)
    requires |segs| == 3 && segs[0].span == Span(0, a) && segs[1].span == Span(a, b) && segs[2].span == Span(b, c)
    requires a <= b <= c
    ensures Tiles(SegmentSpans(segs), 0, c)
  {
    var spans := SegmentSpans(segs);
    assert Tiles(spans[2..], b, c);
    assert Tiles(spans[1..], a, c);
  }

  /** The three handlers in order on an empty file, for any two plain statements
      and any object configuration. The segments tile the whole text in handler
      order, and every property the object handler recorded lies inside its
      segment, holding its own text. */
  method BuildSourceFile(st1: VariableStatement, st2: VariableStatement, config: seq<PropertySpec>)
    returns (sourceFile: SourceFile, segments: seq<DetailSegment>)
    ensures sourceFile.text == StatementText(st1) + StatementText(st2) + StatementText(ObjectStatement(config))
    ensures |segments| == 3
    ensures segments[0].handlerId == "handleNode1" && segments[1].handlerId == "handleNode2"
            && segments[2].handlerId == "handleObjectNode"
    ensures Tiles(SegmentSpans(segments), 0, |sourceFile.text|)
    ensures PropertiesLocated(sourceFile.text, segments[2], config)
  {
    sourceFile := new SourceFile();
    var log := new SegmentLog();
    HandleStatement(sourceFile, log, "handleNode1", st1);
    assert sourceFile.text == StatementText(st1);
    var a := sourceFile.End();
    assert log.segments == [DetailSegment("handleNode1", None, Span(0, a), None)];
    HandleStatement(sourceFile, log, "handleNode2", st2);
    var b := sourceFile.End();
    assert log.segments[1] == DetailSegment("handleNode2", None, Span(a, b), None);
    HandleObjectNode(sourceFile, log, config);
    segments := log.segments;
    assert segments[2].span == Span(b, |sourceFile.text|);
    ThreeTile(a, b, |sourceFile.text|, segments);
  }

  /** `createTsSourceFileWithErrors`: `BuildSourceFile` on the two demo
      statements and the demo object configuration. */
  method CreateTsSourceFileWithErrors() returns (sourceFile: SourceFile, segments: seq<DetailSegment>)
    ensures sourceFile.text == StatementText(XStatement) + StatementText(YStatement) + StatementText(ObjectStatement(ObjectConfig))
    ensures |segments| == 3
    ensures segments[0].handlerId == "handleNode1" && segments[1].handlerId == "handleNode2"
            && segments[2].handlerId == "handleObjectNode"
    ensures Tiles(SegmentSpans(segments), 0, |sourceFile.text|)
    ensures PropertiesLocated(sourceFile.text, segments[2], ObjectConfig)
  {
    sourceFile, segments := BuildSourceFile(XStatement, YStatement, ObjectConfig);
  }

  // ------------------------------------------------------------- analysis

  /** The property detail printed for a diagnostic inside a located property. */
  datatype PropertyDetail = PropertyDetail(nodeId: Option<string>, property: PropertyConfig)

  /** What `analyzeTsCode` reports for one diagnostic. */
  datatype DetailReport =
      /** A diagnostic missing a start or a length: category and message only. */
    | Unplaced(category: string, message: string)
      /** The offset, the handler of the segment found (if any), the trimmed line
          around the offset, and the property found in that segment (if any). */
    | Placed(offset: nat, handlerId: Option<string>, code: string, category: string, message: string, detail: Option<PropertyDetail>)

  function PropertySpans(ps: seq<PropertyConfig>): (r: seq<Span>)
    ensures |r| == |ps|
    ensures forall i :: 0 <= i < |ps| ==> r[i] == ps[i].position
  {
    seq(|ps|, i requires 0 <= i < |ps| => ps[i].position)
  }

  /** The first property of the segment whose closed range holds the offset;
      looked for only when the segment carries a property list. */
  function PropertyAt(seg: DetailSegment, offset: nat): Option<PropertyDetail>
  {
    if seg.properties.None? then None
    else
      match FirstCovering(PropertySpans(seg.properties.value), offset)
      case None => None
      case Some(j) => Some(PropertyDetail(seg.nodeId, seg.properties.value[j]))
  }

  function DetailReportFor(text: string, segs: seq<DetailSegment>, d: Diagnostic): DetailReport
  {
    if d.start.None? || d.length.None? then Unplaced(CategoryText(d.category), d.message)
    else
      var offset := d.start.value;
      var code := OffendingLine(text, offset);
      match FirstCovering(SegmentSpans(segs), offset)
      case None => Placed(offset, None, code, CategoryText(d.category), d.message, None)
      case Some(k) => Placed(offset, Some(segs[k].handlerId), code, CategoryText(d.category), d.message, PropertyAt(segs[k], offset))
  }

  /** The property lookup inside the segment found for a diagnostic. */
  method FindProperty(segment: DetailSegment, start: nat) returns (detail: Option<PropertyDetail>)
    ensures detail == PropertyAt(segment, start)
  {
    detail := None;
    if segment.properties.Some? {
      var prop := FirstCovering(PropertySpans(segment.properties.value), start);
      if prop.Some? {
        detail := Some(PropertyDetail(segment.nodeId, segment.properties.value[prop.value]));
      }
    }
  }

  /** The body of the `forEach` of `analyzeTsCode` for one diagnostic. */
  method AnalyzeDiagnostic(text: string, segments: seq<DetailSegment>, diagnostic: Diagnostic) returns (report: DetailReport)
    ensures report == DetailReportFor(text, segments, diagnostic)
  {
    var category := CategoryText(diagnostic.category);
    if diagnostic.start.None? || diagnostic.length.None? {
      return Unplaced(category, diagnostic.message);
    }
    var start := diagnostic.start.value;
    var lineStart, lineEnd := ScanLine(text, start);
    var fullLine := Trim(Slice(text, lineStart, lineEnd));
    var found := FirstCovering(SegmentSpans(segments), start);
    if found.None? {
      report := Placed(start, None, fullLine, category, diagnostic.message, None);
    } else {
      var detail := FindProperty(segments[found.value], start);
      report := Placed(start, Some(segments[found.value].handlerId), fullLine, category, diagnostic.message, detail);
    }
  }

  /** The reports for a list of diagnostics, in order. */
  function DetailReports(text: string, segs: seq<DetailSegment>, ds: seq<Diagnostic>): (r: seq<DetailReport>)
    ensures |r| == |ds|
    decreases |ds|
  {
    if ds == [] then [] else DetailReports(text, segs, ds[..|ds| - 1]) + [DetailReportFor(text, segs, ds[|ds| - 1])]
  }

  /** Report `i` is the report for diagnostic `i`. */
  lemma {:induction false} DetailReportsAt(text: string, segs: seq<DetailSegment>, ds: seq<Diagnostic>, i: nat)
    requires i < |ds|
    ensures DetailReports(text, segs, ds)[i] == DetailReportFor(text, segs, ds[i])
    decreases |ds|
  {
    var init := ds[..|ds| - 1];
    assert DetailReports(text, segs, ds) == DetailReports(text, segs, init) + [DetailReportFor(text, segs, ds[|ds| - 1])];
    if i < |ds| - 1 {
      DetailReportsAt(text, segs, init, i);
      assert init[i] == ds[i];
    }
  }

  /** `analyzeTsCode`: one report per diagnostic, in order. A diagnostic with a
      start and a length names the first segment whose closed range holds the
      start and, inside it, the first such property; its code line is the
      newline-bounded line around the start, trimmed. */
  method AnalyzeTsCode(text: string, segments: seq<DetailSegment>, diagnostics: seq<Diagnostic>) returns (reports: seq<DetailReport>)
    ensures reports == DetailReports(text, segments, diagnostics)
  {
    reports := [];
    var i := 0;
    while i < |diagnostics|
      invariant 0 <= i <= |diagnostics|
      invariant reports == DetailReports(text, segments, diagnostics[..i])
    {
      var report := AnalyzeDiagnostic(text, segments, diagnostics[i]);
      assert diagnostics[..i + 1][..i] == diagnostics[..i];
      reports := reports + [report];
      i := i + 1;
    }
    assert diagnostics[..i] == diagnostics;
  }

  /** Attribution over back-to-back segments: a diagnostic starting in `(start, end]`
      of segment k names k's handler, and, when that start lies in the closed range
      of property j of k and of no earlier property, names property j. */
  lemma DetailAttribution(text: string, segs: seq<DetailSegment>, d: Diagnostic, k: nat, j: nat)
    requires Tiles(SegmentSpans(segs), 0, |text|)
    requires d.start.Some? && d.length.Some?
    requires k < |segs| && segs[k].span.start < d.start.value <= segs[k].span.end
    requires segs[k].properties.Some? && j < |segs[k].properties.value|
    requires Covers(segs[k].properties.value[j].position, d.start.value)
    requires forall i :: 0 <= i < j ==> !Covers(segs[k].properties.value[i].position, d.start.value)
    ensures DetailReportFor(text, segs, d).handlerId == Some(segs[k].handlerId)
    ensures DetailReportFor(text, segs, d).detail == Some(PropertyDetail(segs[k].nodeId, segs[k].properties.value[j]))
  {
    TiledAttribution(SegmentSpans(segs), 0, |text|, k, d.start.value);
    PropertyAtFirst(segs[k], d.start.value, j);
  }

  /** Inside a segment, the first property whose closed range holds the offset
      is the one named. */
  lemma PropertyAtFirst(seg: DetailSegment, offset: nat, j: nat)
    requires seg.properties.Some? && j < |seg.properties.value|
    requires Covers(seg.properties.value[j].position, offset)
    requires forall i :: 0 <= i < j ==> !Covers(seg.properties.value[i].position, offset)
    ensures PropertyAt(seg, offset) == Some(PropertyDetail(seg.nodeId, seg.properties.value[j]))
  {
    var spans := PropertySpans(seg.properties.value);
    assert Covers(spans[j], offset);
    var found := FirstCovering(spans, offset);
    assert found.Some? && found.value <= j;
  }
}
