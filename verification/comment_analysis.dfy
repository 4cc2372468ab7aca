/** The provenance variant of `src/morph-analysis-using-comments.ts`: each handler
    brackets its statement with `// START <id>` and `// END <id>` comment lines,
    and analysis attributes a diagnostic by scanning the text before it for the
    last START and the last END marker. */
module CommentAnalysis {
  import opened Basics
  import opened Morph
  import opened Provenance

  const StartMarker: string := "// START "
  const EndMarker: string := "// END "
  const IdHead: string := "handleNode"

  predicate IsMarker(m: string)
  {
    m == StartMarker || m == EndMarker
  }

  /** A handler id the marker patterns capture: `handleNode` and one or more digits. */
  predicate IsHandlerId(nodeId: string)
  {
    && |IdHead| < |nodeId| && nodeId[..|IdHead|] == IdHead
    && forall k :: |IdHead| <= k < |nodeId| ==> IsDigit(nodeId[k])
  }

  /** The text `addStatements` writes for a marker: the marker, the id and a line break. */
  function MarkerLine(m: string, nodeId: string): string
  {
    m + nodeId + "\n"
  }

  /** One result of `matchAll`: where the match starts and its capture group
      (`handleNode` followed by the digits). */
  datatype MarkerMatch = MarkerMatch(index: nat, id: string)

  /** Where the run of digits starting at `j` ends (`\d+` is greedy). */
  function DigitsEnd(s: string, j: nat): (r: nat)
    requires j <= |s|
    ensures j <= r <= |s|
    decreases |s| - j
  {
    if j < |s| && IsDigit(s[j]) then DigitsEnd(s, j + 1) else j
  }

  predicate HeadAt(s: string, h: string, i: nat)
  {
    i + |h| <= |s| && s[i..i + |h|] == h
  }

  /** The end of a match of `<marker>handleNode\d+` starting at `i`, if there is one. */
  function MatchAt(s: string, m: string, i: nat): (r: Option<nat>)
    requires i <= |s|
    ensures r.Some? ==> i + |m| + |IdHead| < r.value <= |s|
  {
    var h := m + IdHead;
    if HeadAt(s, h, i) && DigitsEnd(s, i + |h|) > i + |h| then Some(DigitsEnd(s, i + |h|)) else None
  }

  /** `[...s.matchAll(/<marker>(handleNode\d+)/g)]` from position `i`: try each
      position in turn and resume after each match. */
  function Matches(s: string, m: string, i: nat): (r: seq<MarkerMatch>)
    requires i <= |s|
    decreases |s| - i, 1
  {
    if i == |s| then [] else MatchesFrom(s, m, i, MatchAt(s, m, i))
  }

  /** The scan once position `i` has been tried with result `r`: record a match
      and resume after it, or move on by one position. */
  function MatchesFrom(s: string, m: string, i: nat, r: Option<nat>): (ms: seq<MarkerMatch>)
    requires i < |s| && (r.Some? ==> i + |m| < r.value <= |s|)
    decreases |s| - i, 0
  {
    match r
    case Some(e) => [MarkerMatch(i, s[i + |m|..e])] + Matches(s, m, e)
    case None => Matches(s, m, i + 1)
  }

  /** The id of the last START marker when there is no END marker or the last
      START comes after the last END; 'unknown' otherwise. */
  function LastUnclosed(starts: seq<MarkerMatch>, ends: seq<MarkerMatch>): string
  {
    if starts == [] then "unknown"
    else
      var lastStart := starts[|starts| - 1];
      if ends == [] || lastStart.index > ends[|ends| - 1].index then lastStart.id else "unknown"
  }

  /** The attribution computed from the text before the error. */
  function Attribute(before: string): string
  {
    LastUnclosed(Matches(before, StartMarker, 0), Matches(before, EndMarker, 0))
  }

  /** `fullText.substring(0, pos)`: only the text strictly before the offset. */
  function AttributeAt(text: string, pos: nat): string
  {
    Attribute(text[..Min(pos, |text|)])
  }

  // ------------------------------------------------------------- scan facts

  predicate NoSlash(s: string, i: nat, j: nat)
    requires i <= j <= |s|
  {
    forall k :: i <= k < j ==> s[k] != '/'
  }

  /** A character of a text read through a head found at `i`. */
  lemma HeadChar(s: string, h: string, i: nat, k: nat)
    requires k < |h|
    ensures HeadAt(s, h, i) ==> s[i + k] == h[k]
  {
    if HeadAt(s, h, i) {
      assert s[i + k] == s[i..i + |h|][k];
    }
  }

  /** The characters of the two heads that the scan relies on. */
  lemma MarkerFacts(m: string)
    requires IsMarker(m)
    ensures var h := m + IdHead;
            && |h| > |m| > 3 && h[0] == '/' && h[1] == '/' && h[2] == ' '
            && h[3] == (if m == StartMarker then 'S' else 'E')
            && (forall k :: 2 <= k < |h| ==> h[k] != '/')
            && NoBreak(h)
  {
    var h := m + IdHead;
    if m == StartMarker {
      assert h == "// START handleNode";
    } else {
      assert h == "// END handleNode";
    }
  }

  /** The digit scan stops at a line break, so it reads the same in two texts
      that agree up to and including that line break. */
  lemma {:induction false} DigitsEndLocal(s: string, t: string, n: nat, j: nat)
    requires 0 < n <= |s| && n <= |t| && s[..n] == t[..n] && s[n - 1] == '\n'
    requires j < n
    ensures DigitsEnd(s, j) == DigitsEnd(t, j) < n
    decreases n - j
  {
    assert s[j] == s[..n][j] == t[..n][j] == t[j];
    if IsDigit(s[j]) {
      DigitsEndLocal(s, t, n, j + 1);
    }
  }

  /** A marker match holds no line break, so whether one starts before a line
      break depends only on the text up to it. */
  lemma MatchAtLocal(s: string, t: string, n: nat, m: string, i: nat)
    requires NoBreak(m + IdHead)
    requires 0 < n <= |s| && n <= |t| && s[..n] == t[..n] && s[n - 1] == '\n'
    requires i < n
    ensures MatchAt(s, m, i) == MatchAt(t, m, i)
  {
    var h := m + IdHead;
    if i + |h| < n {
      assert s[i..i + |h|] == t[i..i + |h|] by {
        forall k | i <= k < i + |h| ensures s[k] == t[k] {
          assert s[k] == s[..n][k];
          assert t[k] == t[..n][k];
        }
      }
      if HeadAt(s, h, i) {
        DigitsEndLocal(s, t, n, i + |h|);
      }
    } else {
      assert t[n - 1] == t[..n][n - 1] == s[..n][n - 1];
      HeadChar(s, h, i, n - 1 - i);
      HeadChar(t, h, i, n - 1 - i);
    }
  }

  /** Scanning a text that starts with `p`, where `p` ends with a line break,
      finds `p`'s own matches, then goes on from where `p` ends. */
  lemma {:induction false} MatchesSplit(p: string, s: string, m: string, i: nat)
    requires NoBreak(m + IdHead)
    requires |p| <= |s| && s[..|p|] == p
    requires p == [] || p[|p| - 1] == '\n'
    requires i <= |p|
    ensures Matches(s, m, i) == Matches(p, m, i) + Matches(s, m, |p|)
    decreases |p| - i
  {
    if i < |p| {
      assert p[..|p|] == p;
      MatchAtLocal(p, s, |p|, m, i);
      var r := MatchAt(p, m, i);
      if r.Some? {
        var e := r.value;
        MatchesSplit(p, s, m, e);
        MatchFound(p, m, i, e);
        MatchFound(s, m, i, e);
        PrefixSlice(p, s, i + |m|, e);
        ConsSplit(MarkerMatch(i, p[i + |m|..e]), Matches(s, m, i), Matches(s, m, e),
                  Matches(p, m, i), Matches(p, m, e), Matches(s, m, |p|));
      } else {
        MatchesSplit(p, s, m, i + 1);
        MatchMissed(p, m, i);
        MatchMissed(s, m, i);
      }
    }
  }

  /** Neither marker's pattern spans a line break. */
  lemma MarkerHeadNoBreak(m: string)
    requires IsMarker(m)
    ensures NoBreak(m + IdHead)
  {
    MarkerFacts(m);
  }

  /** Two texts that share a prefix agree on every slice inside it. */
  lemma PrefixSlice(p: string, s: string, a: nat, b: nat)
    requires |p| <= |s| && s[..|p|] == p && a <= b <= |p|
    ensures s[a..b] == p[a..b]
  {
    forall k | a <= k < b
      ensures s[k] == p[k]
    {
      assert s[k] == s[..|p|][k];
    }
  }

  lemma ConsSplit<X>(x: X, si: seq<X>, se: seq<X>, pi: seq<X>, pe: seq<X>, tail: seq<X>)
    requires si == [x] + se && pi == [x] + pe && se == pe + tail
    ensures si == pi + tail
  {
  }

  /** A match ending at `e` is recorded, and the scan resumes at `e`. */
  lemma MatchFound(s: string, m: string, i: nat, e: nat)
    requires i < |s| && MatchAt(s, m, i) == Some(e)
    ensures i + |m| <= e <= |s|
    ensures Matches(s, m, i) == [MarkerMatch(i, s[i + |m|..e])] + Matches(s, m, e)
  {
  }

  /** Positions that hold no slash start no match. */
  lemma {:induction false} NoMatchesWithoutSlash(s: string, m: string, i: nat, j: nat)
    requires IsMarker(m)
    requires i <= j <= |s| && NoSlash(s, i, j)
    ensures Matches(s, m, i) == Matches(s, m, j)
    decreases j - i
  {
    if i < j {
      MarkerFacts(m);
      HeadChar(s, m + IdHead, i, 0);
      NoMatchesWithoutSlash(s, m, i + 1, j);
    }
  }

  /** Every match lies in the scanned stretch of the text. */
  lemma {:induction false} MatchIndices(s: string, m: string, i: nat)
    requires i <= |s|
    ensures forall k :: 0 <= k < |Matches(s, m, i)| ==> i <= Matches(s, m, i)[k].index < |s|
    decreases |s| - i
  {
    if i < |s| {
      match MatchAt(s, m, i)
      case Some(e) =>
        MatchFound(s, m, i, e);
        MatchIndices(s, m, e);
      case None =>
        MatchMissed(s, m, i);
        MatchIndices(s, m, i + 1);
    }
  }

  /** The greedy digit run from j ends at the first non-digit after it, or at the end of the text. */
  lemma {:induction false} DigitsEndAt(s: string, j: nat, k: nat)
    requires j <= k <= |s| && (k == |s| || !IsDigit(s[k]))
    requires forall x :: j <= x < k ==> IsDigit(s[x])
    ensures DigitsEnd(s, j) == k
    decreases k - j
  {
    if j < k {
      DigitsEndAt(s, j + 1, k);
    }
  }

  /** The characters of a marker line. */
  lemma LineFacts(m: string, nodeId: string)
    requires IsMarker(m) && IsHandlerId(nodeId)
    ensures var line := MarkerLine(m, nodeId);
            var h := m + IdHead;
            && |line| == |m| + |nodeId| + 1 && |h| < |m| + |nodeId|
            && (forall k :: 0 <= k < |h| ==> line[k] == h[k])
            && (forall k :: |h| <= k < |m| + |nodeId| ==> IsDigit(line[k]))
            && line[|m| + |nodeId|] == '\n'
            && line[|m|..|m| + |nodeId|] == nodeId
            && (forall k :: 2 <= k < |line| ==> line[k] != '/')
  {
    var line := MarkerLine(m, nodeId);
    var h := m + IdHead;
    MarkerFacts(m);
    forall k | 0 <= k < |h| ensures line[k] == h[k] {
      if k >= |m| {
        assert line[k] == nodeId[k - |m|] == nodeId[..|IdHead|][k - |m|];
      }
    }
    forall k | |h| <= k < |m| + |nodeId| ensures IsDigit(line[k]) {
      assert line[k] == nodeId[k - |m|];
    }
    forall k | 2 <= k < |line| ensures line[k] != '/' {
      if |h| <= k < |m| + |nodeId| {
        assert IsDigit(line[k]);
      }
    }
  }

  /** The characters of a text that holds `line` at `i`. */
  lemma SliceChars(s: string, i: nat, line: string)
    requires i + |line| <= |s| && s[i..i + |line|] == line
    ensures forall k :: 0 <= k < |line| ==> s[i + k] == line[k]
  {
    forall k | 0 <= k < |line| ensures s[i + k] == line[k] {
      assert s[i + k] == s[i..i + |line|][k];
    }
  }

  /** A marker line matches its own marker at its start, up to its line break. */
  lemma LineMatchEnd(s: string, i: nat, m: string, nodeId: string)
    requires IsMarker(m) && IsHandlerId(nodeId)
    requires i + |MarkerLine(m, nodeId)| <= |s| && s[i..i + |MarkerLine(m, nodeId)|] == MarkerLine(m, nodeId)
    ensures MatchAt(s, m, i) == Some(i + |m| + |nodeId|)
  {
    var line := MarkerLine(m, nodeId);
    var h := m + IdHead;
    var e := i + |m| + |nodeId|;
    LineFacts(m, nodeId);
    SliceChars(s, i, line);
    assert s[i..i + |h|] == h by {
      forall k | 0 <= k < |h| ensures s[i..i + |h|][k] == h[k] {
        assert s[i + k] == line[k];
      }
    }
    forall x | i + |h| <= x < e ensures IsDigit(s[x]) {
      assert s[i + (x - i)] == line[x - i];
    }
    assert s[i + (e - i)] == line[e - i];
    DigitsEndAt(s, i + |h|, e);
  }

  /** What a marker line's match captures is its handler id. */
  lemma LineCapture(s: string, i: nat, m: string, nodeId: string)
    requires i + |MarkerLine(m, nodeId)| <= |s| && s[i..i + |MarkerLine(m, nodeId)|] == MarkerLine(m, nodeId)
    ensures s[i + |m|..i + |m| + |nodeId|] == nodeId
  {
    var line := MarkerLine(m, nodeId);
    SubSlice(s, i, line, |m|, |m| + |nodeId|);
    forall k | 0 <= k < |nodeId| ensures line[|m| + k] == nodeId[k] {
    }
    assert line[|m|..|m| + |nodeId|] == nodeId;
  }

  /** A slice of a stretch that holds `line` is the same slice of `line`. */
  lemma SubSlice(s: string, i: nat, line: string, a: nat, b: nat)
    requires i + |line| <= |s| && s[i..i + |line|] == line && a <= b <= |line|
    ensures s[i + a..i + b] == line[a..b]
  {
    forall k | a <= k < b ensures s[i + k] == line[k] {
      assert s[i + k] == s[i..i + |line|][k];
    }
  }

  /** A marker line yields exactly one match of its own marker, at its start,
      capturing its handler id. */
  lemma OwnMarkerLine(s: string, i: nat, m: string, nodeId: string)
    requires IsMarker(m) && IsHandlerId(nodeId)
    requires i + |MarkerLine(m, nodeId)| <= |s| && s[i..i + |MarkerLine(m, nodeId)|] == MarkerLine(m, nodeId)
    ensures Matches(s, m, i) == [MarkerMatch(i, nodeId)] + Matches(s, m, i + |MarkerLine(m, nodeId)|)
  {
    var e := i + |m| + |nodeId|;
    LineMatchEnd(s, i, m, nodeId);
    LineCapture(s, i, m, nodeId);
    MatchFound(s, m, i, e);
    LineBreakAt(s, i, m, nodeId);
    NoMatchAtBreak(s, m, e);
    MatchMissed(s, m, e);
  }

  /** A marker line ends with its line break. */
  lemma LineBreakAt(s: string, i: nat, m: string, nodeId: string)
    requires IsMarker(m) && IsHandlerId(nodeId)
    requires i + |MarkerLine(m, nodeId)| <= |s| && s[i..i + |MarkerLine(m, nodeId)|] == MarkerLine(m, nodeId)
    ensures s[i + |m| + |nodeId|] == '\n'
  {
    LineFacts(m, nodeId);
    SliceChars(s, i, MarkerLine(m, nodeId));
    assert s[i + (|m| + |nodeId|)] == MarkerLine(m, nodeId)[|m| + |nodeId|];
  }

  /** No marker match starts at a line break. */
  lemma NoMatchAtBreak(s: string, m: string, e: nat)
    requires IsMarker(m) && e < |s| && s[e] == '\n'
    ensures MatchAt(s, m, e) == None
  {
    MarkerFacts(m);
    HeadChar(s, m + IdHead, e, 0);
  }

  /** Where no match starts, the scan moves on by one position. */
  lemma MatchMissed(s: string, m: string, i: nat)
    requires i < |s| && MatchAt(s, m, i) == None
    ensures Matches(s, m, i) == Matches(s, m, i + 1)
  {
  }

  /** The other marker does not match at either slash that opens a marker line. */
  lemma OtherMissesSlashes(s: string, i: nat, m: string, other: string, nodeId: string)
    requires IsMarker(m) && IsMarker(other) && m != other && IsHandlerId(nodeId)
    requires i + |MarkerLine(m, nodeId)| <= |s| && s[i..i + |MarkerLine(m, nodeId)|] == MarkerLine(m, nodeId)
    ensures MatchAt(s, other, i) == None && MatchAt(s, other, i + 1) == None
  {
    var line := MarkerLine(m, nodeId);
    var h2 := other + IdHead;
    LineFacts(m, nodeId);
    MarkerFacts(m);
    MarkerFacts(other);
    SliceChars(s, i, line);
    assert s[i + 3] == (m + IdHead)[3] != h2[3];
    HeadChar(s, h2, i, 3);
    assert s[i + 2] == ' ';
    HeadChar(s, h2, i + 1, 1);
  }

  /** A marker line holds no slash after its opening two. */
  lemma LineSlashFree(s: string, i: nat, m: string, nodeId: string)
    requires IsMarker(m) && IsHandlerId(nodeId)
    requires i + |MarkerLine(m, nodeId)| <= |s| && s[i..i + |MarkerLine(m, nodeId)|] == MarkerLine(m, nodeId)
    ensures NoSlash(s, i + 2, i + |MarkerLine(m, nodeId)|)
  {
    var line := MarkerLine(m, nodeId);
    LineFacts(m, nodeId);
    SliceChars(s, i, line);
    forall k | i + 2 <= k < i + |line| ensures s[k] != '/' {
      assert s[i + (k - i)] == line[k - i];
    }
  }

  /** A marker line yields no match of the other marker. */
  lemma OtherMarkerLine(s: string, i: nat, m: string, other: string, nodeId: string)
    requires IsMarker(m) && IsMarker(other) && m != other && IsHandlerId(nodeId)
    requires i + |MarkerLine(m, nodeId)| <= |s| && s[i..i + |MarkerLine(m, nodeId)|] == MarkerLine(m, nodeId)
    ensures Matches(s, other, i) == Matches(s, other, i + |MarkerLine(m, nodeId)|)
  {
    OtherMissesSlashes(s, i, m, other, nodeId);
    MatchMissed(s, other, i);
    MatchMissed(s, other, i + 1);
    LineSlashFree(s, i, m, nodeId);
    NoMatchesWithoutSlash(s, other, i + 2, i + |MarkerLine(m, nodeId)|);
  }

  // ---------------------------------------------------------- attribution

  /** A START found after every END names its handler. */
  lemma OpenedLast(starts: seq<MarkerMatch>, ends: seq<MarkerMatch>, m: MarkerMatch)
    requires forall k :: 0 <= k < |ends| ==> ends[k].index < m.index
    ensures LastUnclosed(starts + [m], ends) == m.id
  {
    if ends != [] {
      assert ends[|ends| - 1].index < m.index;
    }
  }

  /** An END found after every START closes it. */
  lemma ClosedLast(starts: seq<MarkerMatch>, ends: seq<MarkerMatch>, m: MarkerMatch)
    requires forall k :: 0 <= k < |starts| ==> starts[k].index < m.index
    ensures LastUnclosed(starts, ends + [m]) == "unknown"
  {
    if starts != [] {
      assert starts[|starts| - 1].index < m.index;
    }
  }

  /** How a scan starts: `p`, ending at a line break, lies before position `q`
      and nothing between `q` and `j` holds a slash. */
  predicate Layout(p: string, s: string, q: nat, j: nat)
  {
    && (p == [] || p[|p| - 1] == '\n')
    && |p| <= q <= j <= |s| && s[..|p|] == p && NoSlash(s, q, j)
  }

  /** `s` holds the marker line of `m` for `nodeId` right after `p`. */
  predicate LineAfter(p: string, s: string, m: string, nodeId: string)
  {
    |p| + |MarkerLine(m, nodeId)| <= |s| && s[|p|..|p| + |MarkerLine(m, nodeId)|] == MarkerLine(m, nodeId)
  }

  /** Scanning for a marker past a line of that marker finds `p`'s matches,
      that line's match, then whatever lies from `j` on. */
  lemma ScanPastOwnLine(p: string, s: string, j: nat, m: string, nodeId: string)
    requires IsMarker(m) && IsHandlerId(nodeId)
    requires Layout(p, s, |p| + |MarkerLine(m, nodeId)|, j) && LineAfter(p, s, m, nodeId)
    ensures Matches(s, m, 0) == Matches(p, m, 0) + ([MarkerMatch(|p|, nodeId)] + Matches(s, m, j))
  {
    MarkerHeadNoBreak(m);
    MatchesSplit(p, s, m, 0);
    OwnMarkerLine(s, |p|, m, nodeId);
    NoMatchesWithoutSlash(s, m, |p| + |MarkerLine(m, nodeId)|, j);
  }

  /** Scanning for the other marker past a marker line finds only `p`'s
      matches before `j`. */
  lemma ScanPastOtherLine(p: string, s: string, j: nat, m: string, other: string, nodeId: string)
    requires IsMarker(m) && IsMarker(other) && m != other && IsHandlerId(nodeId)
    requires Layout(p, s, |p| + |MarkerLine(m, nodeId)|, j) && LineAfter(p, s, m, nodeId)
    ensures Matches(s, other, 0) == Matches(p, other, 0) + Matches(s, other, j)
  {
    var q := |p| + |MarkerLine(m, nodeId)|;
    MarkerHeadNoBreak(other);
    MatchesSplit(p, s, other, 0);
    OtherMarkerLine(s, |p|, m, other, nodeId);
    NoMatchesWithoutSlash(s, other, q, j);
    AppendSame(Matches(s, other, 0), Matches(p, other, 0), Matches(s, other, |p|), Matches(s, other, q), Matches(s, other, j));
  }

  lemma AppendSame<X>(a: seq<X>, b: seq<X>, c: seq<X>, d: seq<X>, e: seq<X>)
    requires a == b + c && c == d && d == e
    ensures a == b + e
  {
  }

  /** Text made of earlier output ending at a line break, a handler's START line
      and a stretch without slashes is attributed to that handler. */
  lemma OpenAttribution(p: string, s: string, nodeId: string)
    requires IsHandlerId(nodeId)
    requires Layout(p, s, |p| + |MarkerLine(StartMarker, nodeId)|, |s|) && LineAfter(p, s, StartMarker, nodeId)
    ensures Attribute(s) == nodeId
  {
    ScanPastOwnLine(p, s, |s|, StartMarker, nodeId);
    ScanPastOtherLine(p, s, |s|, StartMarker, EndMarker, nodeId);
    MatchIndices(p, EndMarker, 0);
    OpenedLast(Matches(p, StartMarker, 0), Matches(p, EndMarker, 0), MarkerMatch(|p|, nodeId));
  }

  /** Text that ends with a handler's END line, after a line break or at the
      very start, is attributed to 'unknown': that END is the last END match,
      and every START match lies before it. */
  lemma EndLineAttribution(u: string, s: string, nodeId: string)
    requires IsHandlerId(nodeId)
    requires u == [] || u[|u| - 1] == '\n'
    requires s == u + MarkerLine(EndMarker, nodeId)
    ensures Attribute(s) == "unknown"
  {
    var eLine := MarkerLine(EndMarker, nodeId);
    MarkerHeadNoBreak(StartMarker);
    MarkerHeadNoBreak(EndMarker);
    assert s[..|u|] == u && s[|u|..|u| + |eLine|] == eLine;
    MatchesSplit(u, s, StartMarker, 0);
    MatchesSplit(u, s, EndMarker, 0);
    OwnMarkerLine(s, |u|, EndMarker, nodeId);
    OtherMarkerLine(s, |u|, EndMarker, StartMarker, nodeId);
    MatchIndices(u, StartMarker, 0);
    ClosedLast(Matches(u, StartMarker, 0), Matches(u, EndMarker, 0), MarkerMatch(|u|, nodeId));
  }

  // ------------------------------------------------------------- handlers

  /** What a handler appends: its START line, its statement, its END line. */
  function Block(nodeId: string, st: VariableStatement): string
  {
    MarkerLine(StartMarker, nodeId) + StatementText(st) + MarkerLine(EndMarker, nodeId)
  }

  /** `handleNode1` and `handleNode2`, for the handler id `nodeId`. */
  method HandleNode(sourceFile: SourceFile, nodeId: string, st: VariableStatement)
    requires IsHandlerId(nodeId)
    modifies sourceFile
    ensures sourceFile.text == old(sourceFile.text) + Block(nodeId, st)
  {
    ghost var before := sourceFile.text;
    MarkerStatement(StartMarker, nodeId);
    MarkerStatement(EndMarker, nodeId);
    sourceFile.AddStatements(StartMarker + nodeId);
    sourceFile.AddVariableStatement(st);
    sourceFile.AddStatements(EndMarker + nodeId);
    AppendThree(before, MarkerLine(StartMarker, nodeId), StatementText(st), MarkerLine(EndMarker, nodeId));
  }

  /** `addStatements` of a marker and a handler id writes the marker line: the
      id ends with a digit, so a line break is added. */
  lemma MarkerStatement(m: string, nodeId: string)
    requires IsHandlerId(nodeId)
    ensures StatementCode(m + nodeId) == MarkerLine(m, nodeId)
  {
    assert (m + nodeId)[|m + nodeId| - 1] == nodeId[|nodeId| - 1];
  }

  lemma AppendThree<X>(o: seq<X>, a: seq<X>, b: seq<X>, c: seq<X>)
    ensures o + a + b + c == o + (a + b + c)
  {
  }

  /** `createTsSourceFileWithErrors`: the two handlers' blocks, in call order. */
  method CreateTsSourceFileWithErrors() returns (sourceFile: SourceFile)
    ensures sourceFile.text == Block("handleNode1", XStatement) + Block("handleNode2", YStatement)
  {
    HandlerIdsOfDemo();
    sourceFile := new SourceFile();
    HandleNode(sourceFile, "handleNode1", XStatement);
    assert sourceFile.text == Block("handleNode1", XStatement);
    HandleNode(sourceFile, "handleNode2", YStatement);
  }

  lemma HandlerIdsOfDemo()
    ensures IsHandlerId("handleNode1") && IsHandlerId("handleNode2")
  {
    assert "handleNode1"[..|IdHead|] == IdHead;
    assert "handleNode2"[..|IdHead|] == IdHead;
  }

  lemma PrefixWithin(a: string, b: string, c: string, rest: string, n: nat)
    requires |a| + |b| <= n <= |a| + |b| + |c|
    ensures (a + (b + c + rest))[..n] == a + b + c[..n - |a| - |b|]
  {
  }

  lemma PrefixWhole(a: string, b: string, c: string, d: string, rest: string)
    ensures (a + (b + c + d) + rest)[..|a| + |b| + |c| + |d|] == a + b + c + d
  {
  }

  /** The parts of a prefix that holds a START line and part of a statement. */
  lemma OpenLayout(p: string, nodeId: string, part: string)
    requires (p == [] || p[|p| - 1] == '\n') && NoSlash(part, 0, |part|)
    ensures var s := p + MarkerLine(StartMarker, nodeId) + part;
            Layout(p, s, |p| + |MarkerLine(StartMarker, nodeId)|, |s|) && LineAfter(p, s, StartMarker, nodeId)
  {
    var line := MarkerLine(StartMarker, nodeId);
    var s := p + line + part;
    assert s[..|p|] == p;
    assert s[|p|..|p| + |line|] == line;
    forall k | |p| + |line| <= k < |s| ensures s[k] != '/' {
      assert s[k] == part[k - |p| - |line|];
    }
  }

  /** Wherever a handler's block sits in a file, after earlier output ending at a
      line break, an offset inside its statement is attributed to that handler,
      whatever follows, provided the statement holds no '/' (a statement holding
      a marker comment of its own would be misread). */
  lemma InsideBlockAttribution(p: string, nodeId: string, st: VariableStatement, rest: string, pos: nat)
    requires p == [] || p[|p| - 1] == '\n'
    requires IsHandlerId(nodeId)
    requires NoSlash(StatementText(st), 0, |StatementText(st)|)
    requires |p| + |MarkerLine(StartMarker, nodeId)| <= pos <= |p| + |MarkerLine(StartMarker, nodeId)| + |StatementText(st)|
    ensures AttributeAt(p + Block(nodeId, st) + rest, pos) == nodeId
  {
    var sLine, eLine := MarkerLine(StartMarker, nodeId), MarkerLine(EndMarker, nodeId);
    var body := StatementText(st);
    var a := |p| + |sLine|;
    var part := body[..pos - a];
    PrefixWithin(p, sLine, body, eLine + rest, pos);
    assert p + (sLine + body + (eLine + rest)) == p + Block(nodeId, st) + rest;
    assert NoSlash(part, 0, |part|) by {
      forall k | 0 <= k < |part| ensures part[k] != '/' {
        assert part[k] == body[k];
      }
    }
    OpenLayout(p, nodeId, part);
    OpenAttribution(p, p + sLine + part, nodeId);
  }

  /** Wherever a handler's block sits in a file, the offset right after its END
      line is attributed to 'unknown', whatever the statement holds and
      whatever precedes or follows the block: the statement's text ends with a
      line break, so no match runs into the END line, and that END is the last
      match before the offset. */
  lemma AfterBlockAttribution(p: string, nodeId: string, st: VariableStatement, rest: string)
    requires IsHandlerId(nodeId)
    ensures AttributeAt(p + Block(nodeId, st) + rest, |p| + |Block(nodeId, st)|) == "unknown"
  {
    var sLine, eLine := MarkerLine(StartMarker, nodeId), MarkerLine(EndMarker, nodeId);
    var body := StatementText(st);
    var u := p + sLine + body;
    PrefixWhole(p, sLine, body, eLine, rest);
    assert body[|body| - 1] == '\n';
    assert u[|u| - 1] == body[|body| - 1];
    EndLineAttribution(u, u + eLine, nodeId);
  }

  lemma XHasNoSlash()
    ensures NoSlash(StatementText(XStatement), 0, |StatementText(XStatement)|)
  {
    assert StatementText(XStatement) == "const x = \"Hello\";\n";
  }

  lemma YHasNoSlash()
    ensures NoSlash(StatementText(YStatement), 0, |StatementText(YStatement)|)
  {
    assert StatementText(YStatement) == "const y: number = \"World\";\n";
  }

  /** On the demo file an offset inside the first statement is attributed to
      `handleNode1`, one inside the second to `handleNode2`, and the offset
      between the two blocks to 'unknown'. */
  lemma DemoAttribution(pos: nat)
    ensures var b1 := Block("handleNode1", XStatement);
            var text := b1 + Block("handleNode2", YStatement);
            var a := |MarkerLine(StartMarker, "handleNode1")|;
            var b := |b1| + |MarkerLine(StartMarker, "handleNode2")|;
            && (a <= pos <= a + |StatementText(XStatement)| ==> AttributeAt(text, pos) == "handleNode1")
            && (pos == |b1| ==> AttributeAt(text, pos) == "unknown")
            && (b <= pos <= b + |StatementText(YStatement)| ==> AttributeAt(text, pos) == "handleNode2")
  {
    XHasNoSlash();
    YHasNoSlash();
    HandlerIdsOfDemo();
    var b1, b2 := Block("handleNode1", XStatement), Block("handleNode2", YStatement);
    assert b1 + b2 == [] + b1 + b2 == b1 + b2 + [];
    assert b1[|b1| - 1] == '\n';
    var a := |MarkerLine(StartMarker, "handleNode1")|;
    var b := |b1| + |MarkerLine(StartMarker, "handleNode2")|;
    if a <= pos <= a + |StatementText(XStatement)| {
      InsideBlockAttribution([], "handleNode1", XStatement, b2, pos);
    }
    if pos == |b1| {
      AfterBlockAttribution([], "handleNode1", XStatement, b2);
    }
    if b <= pos <= b + |StatementText(YStatement)| {
      InsideBlockAttribution(b1, "handleNode2", YStatement, [], pos);
    }
  }

  // ------------------------------------------------------------- analysis

  /** What `analyzeTsCode` reports for one diagnostic. */
  datatype Report =
      /** A diagnostic without a position: category and message only. */
    | Unplaced(category: string, message: string)
    | Placed(offset: nat, handlerId: string, category: string, message: string)

  function ReportFor(text: string, d: Diagnostic): Report
  {
    if d.start.None? then Unplaced(CategoryText(d.category), d.message)
    else Placed(d.start.value, AttributeAt(text, d.start.value), CategoryText(d.category), d.message)
  }

  /** `analyzeTsCode`: one report per diagnostic, in order. */
  method AnalyzeTsCode(text: string, diagnostics: seq<Diagnostic>) returns (reports: seq<Report>)
    ensures |reports| == |diagnostics|
    ensures forall i :: 0 <= i < |diagnostics| ==> reports[i] == ReportFor(text, diagnostics[i])
  {
    reports := [];
    var i := 0;
    while i < |diagnostics|
      invariant 0 <= i <= |diagnostics|
      invariant |reports| == i
      invariant forall k :: 0 <= k < i ==> reports[k] == ReportFor(text, diagnostics[k])
    {
      var diagnostic := diagnostics[i];
      var category := CategoryText(diagnostic.category);
      var report: Report;
      if diagnostic.start.Some? {
        var pos := diagnostic.start.value;
        var textBeforeError := text[..Min(pos, |text|)];
        report := Placed(pos, Attribute(textBeforeError), category, diagnostic.message);
      } else {
        report := Unplaced(category, diagnostic.message);
      }
      reports := reports + [report];
      i := i + 1;
    }
  }
}
