// The syntax-error locator (src/validate-json.ts): at most one problem,
// located by the parser's message or by converting an offset into a
// line and a column, with the message cleaned for display.

module ValidateJson {
  import opened TextScan
  import Stringify

  /** What JSON.parse did with the text: it succeeded, or it threw an
      error whose message (or string form) is given. */
  datatype ParseOutcome = Parsed | Failed(message: string)

  /** JsonProblem: a message and the line and column reported for it
      (1-based when converted from an offset or defaulted; taken verbatim,
      possibly 0, from a "line N column M" message). */
  datatype JsonProblem = JsonProblem(message: string, line: nat, column: nat)

  // ---------------------------------------------------------------------
  // Blank input: text.trim() is the empty string.

  /** The end of s once trailing whitespace is removed. */
  function TrimmedEnd(s: string, start: nat): (e: nat)
    requires start <= |s|
    ensures start <= e <= |s|
    ensures forall k :: e <= k < |s| ==> IsSpace(s[k])
    ensures e > start ==> !IsSpace(s[e - 1])
    decreases |s|
  {
    if |s| == start || !IsSpace(s[|s| - 1]) then |s| else TrimmedEnd(s[..|s| - 1], start)
  }

  /** String.prototype.trim. */
  function Trim(s: string): string {
    var start := Skip(s, 0, IsSpace);
    s[start..TrimmedEnd(s, start)]
  }

  /** Trim leaves nothing exactly when every character is whitespace. */
  lemma TrimIsEmptyIffBlank(s: string)
    ensures Trim(s) == [] <==> forall k :: 0 <= k < |s| ==> IsSpace(s[k])
  {
    var start := Skip(s, 0, IsSpace);
    if start < |s| {
      var e := TrimmedEnd(s, start);
      assert !IsSpace(s[start]);
      assert e > start;
    }
  }

  // ---------------------------------------------------------------------
  // The two position patterns of the engine's message.

  /** `\s+(\d+)` tried at index a: the number captured and where its
      digits end. */
  function SpacedNumber(m: string, a: nat): Option<(nat, nat)>
    requires a <= |m|
  {
    var b := Skip(m, a, IsSpace);
    var c := Skip(m, b, IsDigit);
    if b == a || c == b then None else Some((DecimalValue(m[b..c]), c))
  }

  /** /position\s+(\d+)/i tried at index k: the number it captures. */
  function PositionCapture(m: string, k: nat): Option<nat> {
    if !LiteralAt(m, k, "position") then None
    else
      match SpacedNumber(m, k + 8)
      case Some((pos, _)) => Some(pos)
      case None => None
  }

  /** /line\s+(\d+)\s+column\s+(\d+)/i tried at index k: the two numbers. */
  function LineColumnCapture(m: string, k: nat): Option<(nat, nat)> {
    if !LiteralAt(m, k, "line") then None
    else
      match SpacedNumber(m, k + 4)
      case None => None
      case Some((line, c)) =>
        match ColumnCapture(m, c)
        case Some(column) => Some((line, column))
        case None => None
  }

  /** The `\s+column\s+(\d+)` part of that pattern, tried at index c. */
  function ColumnCapture(m: string, c: nat): Option<nat>
    requires c <= |m|
  {
    var d := Skip(m, c, IsSpace);
    if d == c || !LiteralAt(m, d, "column") then None
    else
      match SpacedNumber(m, d + 6)
      case Some((column, _)) => Some(column)
      case None => None
  }

  /** The indices at which each pattern matches, as predicates. */
  function PositionMatchesAt(m: string): nat -> bool {
    (k: nat) => PositionCapture(m, k).Some?
  }

  function LineColumnMatchesAt(m: string): nat -> bool {
    (k: nat) => LineColumnCapture(m, k).Some?
  }

  function PositionSuffixStartsAt(m: string): nat -> bool {
    (k: nat) => PositionSuffixAt(m, k)
  }

  function LineColumnSuffixStartsAt(m: string): nat -> bool {
    (k: nat) => LineColumnSuffixAt(m, k)
  }

  /** msg.match(/position\s+(\d+)/i): the capture of the leftmost match. */
  function PositionMatch(m: string): Option<nat> {
    match FindFrom(0, |m|, PositionMatchesAt(m))
    case Some(k) => PositionCapture(m, k)
    case None => None
  }

  /** msg.match(/line\s+(\d+)\s+column\s+(\d+)/i): the leftmost match. */
  function LineColumnMatch(m: string): Option<(nat, nat)> {
    match FindFrom(0, |m|, LineColumnMatchesAt(m))
    case Some(k) => LineColumnCapture(m, k)
    case None => None
  }

  // ---------------------------------------------------------------------
  // Offset to line and column.

  /** The number of newlines in s. */
  function NewlineCount(s: string): nat {
    if |s| == 0 then 0 else (if s[0] == '\n' then 1 else 0) + NewlineCount(s[1..])
  }

  lemma {:induction false} NewlineCountConcat(a: string, b: string)
    ensures NewlineCount(a + b) == NewlineCount(a) + NewlineCount(b)
  {
    if |a| == 0 {
      assert a + b == b;
    } else {
      assert (a + b)[1..] == a[1..] + b;
      NewlineCountConcat(a[1..], b);
    }
  }

  lemma {:induction false} NewlineCountNone(s: string)
    requires '\n' !in s
    ensures NewlineCount(s) == 0
  {
    if |s| > 0 {
      assert s[0] in s;
      assert forall c :: c in s[1..] ==> c in s;
      NewlineCountNone(s[1..]);
    }
  }

  /** The offset at which the line holding offset p starts: just after
      the last newline before p, or 0. */
  function LineStart(t: string, p: nat): (r: nat)
    requires p <= |t|
    ensures r <= p
  {
    if p == 0 then 0 else if t[p - 1] == '\n' then p else LineStart(t, p - 1)
  }

  /** The position of offset pos: 1 plus the newlines before it, and 1 plus
      its distance from the start of its line; (1, 1) past the end. */
  function LineColumnAt(text: string, pos: nat): (nat, nat) {
    if pos <= |text| then (1 + NewlineCount(text[..pos]), pos - LineStart(text, pos) + 1)
    else (1, 1)
  }

  /** The offset of the first character of line k (0-based) of the lines,
      each followed by its newline. */
  function LineOffset(lines: seq<string>, k: nat): nat
    requires k <= |lines|
  {
    if k == 0 then 0 else LineOffset(lines, k - 1) + |lines[k - 1]| + 1
  }

  lemma {:induction false} LineOffsetFront(lines: seq<string>, k: nat)
    requires 1 <= k <= |lines|
    ensures LineOffset(lines, k) == |lines[0]| + 1 + LineOffset(lines[1..], k - 1)
  {
    if k > 1 {
      LineOffsetFront(lines, k - 1);
      assert lines[1..][k - 2] == lines[k - 1];
    }
  }

  lemma {:induction false} LineOffsetMonotone(lines: seq<string>, j: nat, k: nat)
    requires j <= k <= |lines|
    ensures LineOffset(lines, j) <= LineOffset(lines, k)
    decreases k - j
  {
    if j < k {
      LineOffsetMonotone(lines, j, k - 1);
    }
  }

  /** The lines and their newlines account for every character of the
      joined text, plus one for the newline the last line lacks. */
  lemma {:induction false} JoinedLength(lines: seq<string>)
    requires |lines| >= 1
    ensures LineOffset(lines, |lines|) == |Join(lines)| + 1
  {
    if |lines| > 1 {
      JoinedLength(lines[1..]);
      LineOffsetFront(lines, |lines|);
    }
  }

  lemma {:induction false} LineStartWithoutNewline(t: string, p: nat)
    requires p <= |t|
    requires forall j :: 0 <= j < p ==> t[j] != '\n'
    ensures LineStart(t, p) == 0
  {
    if p > 0 {
      LineStartWithoutNewline(t, p - 1);
    }
  }

  lemma {:induction false} LineStartAfterNewline(t: string, a: nat, p: nat)
    requires 1 <= a && a + p <= |t| && t[a - 1] == '\n'
    ensures LineStart(t, a + p) == a + LineStart(t[a..], p)
  {
    if p > 0 {
      assert t[a..][p - 1] == t[a + p - 1];
      LineStartAfterNewline(t, a, p - 1);
    }
  }

  /** An offset within the first line: no newline before it, line start 0. */
  lemma OffsetInFirstLine(lines: seq<string>, pos: nat)
    requires |lines| >= 1 && '\n' !in lines[0] && pos <= |lines[0]|
    ensures pos <= |Join(lines)|
    ensures NewlineCount(Join(lines)[..pos]) == 0
    ensures LineStart(Join(lines), pos) == 0
  {
    var t := Join(lines);
    var first := lines[0];
    assert t[..|first|] == first;
    forall j | 0 <= j < pos ensures t[j] != '\n' {
      assert t[j] == first[j];
      assert first[j] in first;
    }
    assert '\n' !in t[..pos];
    NewlineCountNone(t[..pos]);
    LineStartWithoutNewline(t, pos);
  }

  /** An offset p into the text r after a newline-free line and its
      newline: one more newline before it, and its line start shifted. */
  lemma ShiftPastLine(first: string, r: string, p: nat)
    requires '\n' !in first && p <= |r|
    ensures |first| + 1 + p <= |first + "\n" + r|
    ensures NewlineCount((first + "\n" + r)[..|first| + 1 + p]) == 1 + NewlineCount(r[..p])
    ensures LineStart(first + "\n" + r, |first| + 1 + p) == |first| + 1 + LineStart(r, p)
  {
    var t := first + "\n" + r;
    var a := |first| + 1;
    assert t[..a + p] == first + "\n" + r[..p];
    NewlineCountConcat(first + "\n", r[..p]);
    NewlineCountConcat(first, "\n");
    NewlineCountNone(first);
    assert t[a..] == r;
    LineStartAfterNewline(t, a, p);
  }

  /** An offset within line k (0-based) of newline-free lines, or just
      after its last character, has k newlines before it in the joined
      text, and its line starts where the lines before it end. */
  lemma {:induction false} OffsetWithinLine(lines: seq<string>, k: nat, pos: nat)
    requires NewlineFree(lines)
    requires k < |lines|
    requires LineOffset(lines, k) <= pos <= LineOffset(lines, k) + |lines[k]|
    ensures pos <= |Join(lines)|
    ensures NewlineCount(Join(lines)[..pos]) == k
    ensures LineStart(Join(lines), pos) == LineOffset(lines, k)
  {
    if k == 0 {
      OffsetInFirstLine(lines, pos);
    } else {
      var first, rest := lines[0], lines[1..];
      assert Join(lines) == first + "\n" + Join(rest);
      LineOffsetFront(lines, k);
      assert lines[k] == rest[k - 1];
      assert forall j :: 0 <= j < |rest| ==> rest[j] == lines[j + 1];
      var p := pos - (|first| + 1);
      OffsetWithinLine(rest, k - 1, p);
      ShiftPastLine(first, Join(rest), p);
    }
  }

  /** The line of the lines holding an offset inside the text. */
  lemma {:induction false} LineHolding(lines: seq<string>, pos: nat) returns (k: nat)
    requires pos < LineOffset(lines, |lines|)
    ensures k < |lines|
    ensures LineOffset(lines, k) <= pos < LineOffset(lines, k + 1)
  {
    k := |lines| - 1;
    if LineOffset(lines, k) > pos {
      var front := lines[..k];
      PrefixLineOffset(lines, k, k);
      var j := LineHolding(front, pos);
      PrefixLineOffset(lines, k, j);
      PrefixLineOffset(lines, k, j + 1);
      k := j;
    }
  }

  lemma {:induction false} PrefixLineOffset(lines: seq<string>, n: nat, j: nat)
    requires j <= n <= |lines|
    ensures LineOffset(lines[..n], j) == LineOffset(lines, j)
  {
    if j > 0 {
      PrefixLineOffset(lines, n, j - 1);
    }
  }

  /** For an offset inside the text or at its end, the sum of (length + 1)
      over the lines before the reported line, plus the column less one,
      is the offset again; the column lies within the reported line, at
      most one past its last character. */
  lemma LineColumnRoundTrip(text: string, pos: nat)
    requires pos <= |text|
    ensures 1 <= LineColumnAt(text, pos).0 <= |Split(text)|
    ensures 1 <= LineColumnAt(text, pos).1 <= |Split(text)[LineColumnAt(text, pos).0 - 1]| + 1
    ensures LineOffset(Split(text), LineColumnAt(text, pos).0 - 1) + LineColumnAt(text, pos).1 - 1 == pos
  {
    var lines := Split(text);
    SplitJoinsBack(text);
    JoinedLength(lines);
    var k := LineHolding(lines, pos);
    OffsetWithinLine(lines, k, pos);
  }

  /** The conversion loop stops in line i: that line and its column. */
  lemma StopsInLine(text: string, lines: seq<string>, i: nat, pos: nat)
    requires lines == Split(text) && i < |lines|
    requires LineOffset(lines, i) <= pos < LineOffset(lines, i) + |lines[i]| + 1
    ensures (i + 1, pos - LineOffset(lines, i) + 1) == LineColumnAt(text, pos)
  {
    SplitJoinsBack(text);
    StopsInJoinedLine(lines, i, pos);
  }

  lemma StopsInJoinedLine(lines: seq<string>, i: nat, pos: nat)
    requires NewlineFree(lines) && i < |lines|
    requires LineOffset(lines, i) <= pos < LineOffset(lines, i) + |lines[i]| + 1
    ensures (i + 1, pos - LineOffset(lines, i) + 1) == LineColumnAt(Join(lines), pos)
  {
    OffsetWithinLine(lines, i, pos);
    LineColumnFromParts(Join(lines), pos, i, LineOffset(lines, i));
  }

  lemma LineColumnFromParts(t: string, pos: nat, n: nat, start: nat)
    requires pos <= |t| && NewlineCount(t[..pos]) == n && LineStart(t, pos) == start
    ensures LineColumnAt(t, pos) == (n + 1, pos - start + 1)
  {
  }

  /** The conversion loop runs past the last line: the default (1, 1). */
  lemma RunsPastText(text: string, lines: seq<string>, pos: nat)
    requires lines == Split(text)
    requires LineOffset(lines, |lines|) <= pos
    ensures LineColumnAt(text, pos) == (1, 1)
  {
    SplitJoinsBack(text);
    JoinedLength(lines);
  }

  /** The conversion loop over text.split("\n"): the first line whose end,
      counted with its newline, lies past pos gives the line and the
      column; when there is none the position stays (1, 1). */
  method PositionToLineColumn(text: string, pos: nat) returns (line: nat, column: nat)
    ensures (line, column) == LineColumnAt(text, pos)
  {
    line, column := 1, 1;
    var count := 0;
    var lines := Split(text);
    var i := 0;
    while i < |lines|
      invariant i <= |lines|
      invariant count == LineOffset(lines, i) && count <= pos
      invariant line == 1 && column == 1
    {
      if count + |lines[i]| + 1 > pos {
        line := i + 1;
        column := pos - count + 1;
        StopsInLine(text, lines, i, pos);
        break;
      }
      count := count + |lines[i]| + 1;
      i := i + 1;
    }
    if i == |lines| {
      RunsPastText(text, lines, pos);
    }
  }

  // ---------------------------------------------------------------------
  // Cleaning the message.

  predicate NoLineTerminatorFrom(m: string, i: nat) {
    forall j :: i <= j < |m| ==> !IsLineTerminator(m[j])
  }

  /** .replace(/^JSON\.parse:\s*\/i, ""): the parser-name tag and the
      whitespace after it go. */
  function StripParsePrefix(m: string): string {
    if LiteralAt(m, 0, "json.parse:") then m[Skip(m, 11, IsSpace)..] else m
  }

  /** /\s+at position \d+.*$/i matches from index k. */
  predicate PositionSuffixAt(m: string, k: nat) {
    k < |m| && IsSpace(m[k]) &&
    var a := Skip(m, k, IsSpace);
    LiteralAt(m, a, "at position ") && a + 12 < |m| && IsDigit(m[a + 12]) &&
    NoLineTerminatorFrom(m, a + 12)
  }

  /** /\s+at line \d+ column \d+.*$/i matches from index k. */
  predicate LineColumnSuffixAt(m: string, k: nat) {
    k < |m| && IsSpace(m[k]) && LineTailAt(m, Skip(m, k, IsSpace))
  }

  /** The "at line \d+ column \d+.*$" part, from index a. */
  predicate LineTailAt(m: string, a: nat) {
    LiteralAt(m, a, "at line ") && a + 8 < |m| && IsDigit(m[a + 8]) &&
    ColumnTailAt(m, Skip(m, a + 8, IsDigit))
  }

  /** The " column \d+.*$" part, from index c. */
  predicate ColumnTailAt(m: string, c: nat) {
    LiteralAt(m, c, " column ") && c + 8 < |m| && IsDigit(m[c + 8]) &&
    NoLineTerminatorFrom(m, c + 8)
  }

  /** m.replace(pattern, "") for a pattern whose matches run to the end of
      the string: m is cut where the leftmost match starts. */
  function CutAtFirst(m: string, at: nat -> bool): string {
    match FindFrom(0, |m|, at)
    case Some(k) => m[..k]
    case None => m
  }

  /** The three chained replacements. */
  function CleanMessage(m: string): string {
    var m1 := StripParsePrefix(m);
    var m2 := CutAtFirst(m1, PositionSuffixStartsAt(m1));
    CutAtFirst(m2, LineColumnSuffixStartsAt(m2))
  }

  // ---------------------------------------------------------------------
  // The validator.

  /** The position reported: an explicit line and column wins, then a
      converted "position N" offset, then (1, 1). */
  function Location(text: string, m: string): (nat, nat) {
    match LineColumnMatch(m)
    case Some(lc) => lc
    case None =>
      match PositionMatch(m)
      case Some(pos) => LineColumnAt(text, pos)
      case None => (1, 1)
  }

  /** validateJson: nothing for blank text or a successful parse, otherwise
      exactly one problem with the cleaned message and its position. */
  method ValidateJson(text: string, outcome: ParseOutcome) returns (problems: seq<JsonProblem>)
    ensures |problems| <= 1
    ensures problems == [] <==> Trim(text) == [] || outcome.Parsed?
    ensures Trim(text) != [] && outcome.Failed? ==>
      problems == [JsonProblem(CleanMessage(outcome.message),
                               Location(text, outcome.message).0,
                               Location(text, outcome.message).1)]
  {
    if Trim(text) == [] {
      return [];
    }
    match outcome
    case Parsed =>
      problems := [];
    case Failed(msg) =>
      var posMatch := PositionMatch(msg);
      var lineColMatch := LineColumnMatch(msg);
      var line, column := 1, 1;
      if lineColMatch.Some? {
        line, column := lineColMatch.value.0, lineColMatch.value.1;
      } else if posMatch.Some? {
        line, column := PositionToLineColumn(text, posMatch.value);
      }
      problems := [JsonProblem(CleanMessage(msg), line, column)];
  }

  // ---------------------------------------------------------------------
  // What the cleanup and the position priority guarantee.

  /** The tag, then the whitespace after it, is removed from the front,
      and nothing else; a message without the tag is unchanged. */
  lemma ParsePrefixStripped(m: string)
    ensures var r := StripParsePrefix(m);
      if LiteralAt(m, 0, "json.parse:") then
        11 + |r| <= |m| && r == m[|m| - |r|..] &&
        (forall j :: 11 <= j < |m| - |r| ==> IsSpace(m[j])) &&
        (r == [] || !IsSpace(r[0]))
      else r == m
  {
  }

  /** Cutting at the leftmost match keeps everything before it, and leaves
      the string whole when nothing matches. */
  lemma CutAtLeftmostMatch(m: string, at: nat -> bool)
    ensures var r := CutAtFirst(m, at);
      r == m[..|r|] &&
      (forall j :: 0 <= j < |r| ==> !at(j)) &&
      ((exists k :: 0 <= k <= |m| && at(k)) ==> at(|r|)) &&
      ((forall k :: 0 <= k <= |m| ==> !at(k)) ==> r == m)
  {
  }

  lemma SkipOnPrefix(m: string, n: nat, k: nat, p: char -> bool)
    requires k <= n <= |m|
    requires Skip(m[..n], k, p) < n
    ensures Skip(m, k, p) == Skip(m[..n], k, p)
  {
    var a := Skip(m[..n], k, p);
    var b := Skip(m, k, p);
    assert forall j :: k <= j < a ==> p(m[j]) by {
      assert forall j :: k <= j < a ==> m[j] == m[..n][j];
    }
    assert !p(m[a]) by { assert m[a] == m[..n][a]; }
  }

  lemma LiteralOnPrefix(m: string, n: nat, k: nat, lit: string)
    requires n <= |m| && LiteralAt(m[..n], k, lit)
    ensures LiteralAt(m, k, lit)
  {
    forall j | 0 <= j < |lit| ensures LowerAscii(m[k + j]) == lit[j] {
      assert m[..n][k + j] == m[k + j];
    }
  }

  /** A position suffix of a prefix of a message without line terminators
      is one of the message itself. */
  lemma PositionSuffixOnPrefix(m: string, n: nat, k: nat)
    requires n <= |m| && NoLineTerminatorFrom(m, 0)
    requires PositionSuffixAt(m[..n], k)
    ensures PositionSuffixAt(m, k)
  {
    var a := Skip(m[..n], k, IsSpace);
    SkipOnPrefix(m, n, k, IsSpace);
    LiteralOnPrefix(m, n, a, "at position ");
    assert m[a + 12] == m[..n][a + 12];
  }

  /** The same for a line-and-column suffix. */
  lemma LineColumnSuffixOnPrefix(m: string, n: nat, k: nat)
    requires n <= |m| && NoLineTerminatorFrom(m, 0)
    requires LineColumnSuffixAt(m[..n], k)
    ensures LineColumnSuffixAt(m, k)
  {
    SkipOnPrefix(m, n, k, IsSpace);
    LineTailOnPrefix(m, n, Skip(m[..n], k, IsSpace));
  }

  lemma LineTailOnPrefix(m: string, n: nat, a: nat)
    requires n <= |m| && NoLineTerminatorFrom(m, 0)
    requires LineTailAt(m[..n], a)
    ensures LineTailAt(m, a)
  {
    LiteralOnPrefix(m, n, a, "at line ");
    assert m[a + 8] == m[..n][a + 8];
    SkipOnPrefix(m, n, a + 8, IsDigit);
    ColumnTailOnPrefix(m, n, Skip(m[..n], a + 8, IsDigit));
  }

  lemma ColumnTailOnPrefix(m: string, n: nat, c: nat)
    requires n <= |m| && NoLineTerminatorFrom(m, 0)
    requires ColumnTailAt(m[..n], c)
    ensures ColumnTailAt(m, c)
  {
    LiteralOnPrefix(m, n, c, " column ");
    assert m[c + 8] == m[..n][c + 8];
  }

  /** The cleaned message is a piece of the original: what follows the
      stripped tag, up to where a suffix was cut. */
  lemma CleanMessageIsPiece(m: string)
    ensures var r := CleanMessage(m);
      var m1 := StripParsePrefix(m);
      m1 == m[|m| - |m1|..] && r == m1[..|r|]
  {
    var m1 := StripParsePrefix(m);
    var m2 := CutAtFirst(m1, PositionSuffixStartsAt(m1));
    var r := CutAtFirst(m2, LineColumnSuffixStartsAt(m2));
    assert r == CleanMessage(m);
    ParsePrefixStripped(m);
    CutIsPrefix(m1, PositionSuffixStartsAt(m1));
    CutIsPrefix(m2, LineColumnSuffixStartsAt(m2));
    assert r == m1[..|r|];
  }

  lemma CutIsPrefix(m: string, at: nat -> bool)
    ensures |CutAtFirst(m, at)| <= |m|
    ensures CutAtFirst(m, at) == m[..|CutAtFirst(m, at)|]
  {
  }

  /** Cutting at the leftmost position suffix of a one-line message
      leaves none. */
  lemma PositionCutLeavesNone(m: string)
    requires NoLineTerminatorFrom(m, 0)
    ensures forall k :: !PositionSuffixAt(CutAtFirst(m, PositionSuffixStartsAt(m)), k)
  {
    var r := CutAtFirst(m, PositionSuffixStartsAt(m));
    CutAtLeftmostMatch(m, PositionSuffixStartsAt(m));
    forall k: nat ensures !PositionSuffixAt(r, k) {
      assert k < |r| ==> !PositionSuffixStartsAt(m)(k);
      if PositionSuffixAt(r, k) {
        PositionSuffixOnPrefix(m, |r|, k);
        assert false;
      }
    }
  }

  /** Cutting at the leftmost line-and-column suffix of a one-line message
      leaves none. */
  lemma LineColumnCutLeavesNone(m: string)
    requires NoLineTerminatorFrom(m, 0)
    ensures forall k :: !LineColumnSuffixAt(CutAtFirst(m, LineColumnSuffixStartsAt(m)), k)
  {
    var r := CutAtFirst(m, LineColumnSuffixStartsAt(m));
    CutAtLeftmostMatch(m, LineColumnSuffixStartsAt(m));
    forall k: nat ensures !LineColumnSuffixAt(r, k) {
      assert k < |r| ==> !LineColumnSuffixStartsAt(m)(k);
      if LineColumnSuffixAt(r, k) {
        LineColumnSuffixOnPrefix(m, |r|, k);
        assert false;
      }
    }
  }

  /** A later cut cannot bring a position suffix back. */
  lemma CutKeepsNoPositionSuffix(m: string, at: nat -> bool)
    requires NoLineTerminatorFrom(m, 0)
    requires forall k :: !PositionSuffixAt(m, k)
    ensures forall k :: !PositionSuffixAt(CutAtFirst(m, at), k)
  {
    var r := CutAtFirst(m, at);
    CutIsPrefix(m, at);
    forall k: nat ensures !PositionSuffixAt(r, k) {
      if PositionSuffixAt(r, k) {
        PositionSuffixOnPrefix(m, |r|, k);
        assert false;
      }
    }
  }

  /** For a message on one line the cleaned message carries no
      " at position N..." and no " at line N column M..." suffix at all. */
  lemma CleanMessageHasNoSuffix(m: string)
    requires NoLineTerminatorFrom(m, 0)
    ensures forall k :: !PositionSuffixAt(CleanMessage(m), k)
    ensures forall k :: !LineColumnSuffixAt(CleanMessage(m), k)
  {
    var m1 := StripParsePrefix(m);
    var m2 := CutAtFirst(m1, PositionSuffixStartsAt(m1));
    assert CleanMessage(m) == CutAtFirst(m2, LineColumnSuffixStartsAt(m2));
    ParsePrefixStripped(m);
    assert NoLineTerminatorFrom(m1, 0) by {
      assert forall j :: 0 <= j < |m1| ==> m1[j] == m[|m| - |m1| + j];
    }
    CutIsPrefix(m1, PositionSuffixStartsAt(m1));
    assert NoLineTerminatorFrom(m2, 0) by {
      assert forall j :: 0 <= j < |m2| ==> m2[j] == m1[j];
    }
    PositionCutLeavesNone(m1);
    CutKeepsNoPositionSuffix(m2, LineColumnSuffixStartsAt(m2));
    LineColumnCutLeavesNone(m2);
  }

  /** An explicit "line N column M" is reported as it is, whatever offset
      the message also names. */
  lemma ExplicitLineColumnWins(text: string, m: string, k: nat, line: nat, column: nat)
    requires LineColumnCapture(m, k) == Some((line, column))
    requires forall j :: 0 <= j < k ==> LineColumnCapture(m, j).None?
    ensures Location(text, m) == (line, column)
  {
    assert LineColumnMatchesAt(m)(k);
    assert forall j :: 0 <= j < k ==> !LineColumnMatchesAt(m)(j);
    FindFromLeftmost(0, |m|, LineColumnMatchesAt(m), k);
  }

  /** Without an explicit pair, the leftmost "position N" is converted. */
  lemma OffsetConverted(text: string, m: string, k: nat, pos: nat)
    requires forall j :: 0 <= j <= |m| ==> LineColumnCapture(m, j).None?
    requires PositionCapture(m, k) == Some(pos)
    requires forall j :: 0 <= j < k ==> PositionCapture(m, j).None?
    ensures Location(text, m) == LineColumnAt(text, pos)
  {
    assert PositionMatchesAt(m)(k);
    assert forall j :: 0 <= j < k ==> !PositionMatchesAt(m)(j);
    FindFromLeftmost(0, |m|, PositionMatchesAt(m), k);
    assert FindFrom(0, |m|, LineColumnMatchesAt(m)).None?;
  }

  /** A message with neither pattern, or with an offset past the end of
      the text, is reported at line 1, column 1. */
  lemma DefaultLocation(text: string, m: string)
    requires forall j :: 0 <= j <= |m| ==> LineColumnCapture(m, j).None?
    requires forall j :: 0 <= j <= |m| ==>
      PositionCapture(m, j).None? || PositionCapture(m, j).value > |text|
    ensures Location(text, m) == (1, 1)
  {
  }

  // ---------------------------------------------------------------------
  // A message in V8's format, "<description> at position N".

  /** The offset written after " at position " is read back, and the
      suffix is recognized where it starts. */
  lemma OffsetSuffixRead(pre: string, n: nat)
    ensures var m := pre + " at position " + Stringify.NatToString(n);
      PositionCapture(m, |pre| + 4) == Some(n) && PositionSuffixAt(m, |pre|)
  {
    var digits := Stringify.NatToString(n);
    var m := pre + " at position " + digits;
    TagFacts(pre, digits);
    NumberAfterTag(pre + " at position ", digits);
    CaptureAfterTag(m, |pre|, n);
    SuffixAfterTag(m, |pre|);
  }

  /** Where the pieces of " at position " sit in the message. */
  lemma TagFacts(pre: string, digits: string)
    ensures var m := pre + " at position " + digits;
      LiteralAt(m, |pre| + 4, "position") && LiteralAt(m, |pre| + 1, "at position ") &&
      m[|pre|] == ' ' && m[|pre| + 1] == 'a' && m[|pre| + 12] == ' '
  {
    var m := pre + " at position " + digits;
    assert m == (pre + " at ") + "position" + (" " + digits);
    LiteralInside(pre + " at ", "position", " " + digits);
    assert m == (pre + " ") + "at position " + digits;
    LiteralInside(pre + " ", "at position ", digits);
  }

  lemma CaptureAfterTag(m: string, p: nat, n: nat)
    requires p + 13 < |m| && LiteralAt(m, p + 4, "position") && Skip(m, p + 12, IsSpace) == p + 13
    requires Skip(m, p + 13, IsDigit) == |m| && m[p + 13..] == Stringify.NatToString(n)
    ensures PositionCapture(m, p + 4) == Some(n)
  {
    DecimalValueOfNatToString(n);
    assert m[p + 13..|m|] == m[p + 13..];
  }

  lemma SuffixAfterTag(m: string, p: nat)
    requires p + 13 < |m| && m[p] == ' ' && m[p + 1] == 'a' && LiteralAt(m, p + 1, "at position ")
    requires IsDigit(m[p + 13]) && NoLineTerminatorFrom(m, p + 13)
    ensures PositionSuffixAt(m, p)
  {
    assert Skip(m, p, IsSpace) == p + 1;
  }

  /** A lower-case literal is found where it was put. */
  lemma LiteralInside(a: string, lit: string, b: string)
    requires forall j :: 0 <= j < |lit| ==> LowerAscii(lit[j]) == lit[j]
    ensures LiteralAt(a + lit + b, |a|, lit)
  {
    forall j | 0 <= j < |lit| ensures (a + lit + b)[|a| + j] == lit[j] {
    }
  }

  /** The digits written after a tag ending in a space: the space run ends
      where they begin and the digit run reaches the end. */
  lemma NumberAfterTag(head: string, digits: string)
    requires |head| >= 1 && head[|head| - 1] == ' '
    requires |digits| >= 1 && forall j :: 0 <= j < |digits| ==> IsDigit(digits[j])
    ensures Skip(head + digits, |head| - 1, IsSpace) == |head|
    ensures Skip(head + digits, |head|, IsDigit) == |head + digits|
    ensures (head + digits)[|head|..] == digits
    ensures NoLineTerminatorFrom(head + digits, |head|)
  {
    var m := head + digits;
    assert forall j :: |head| <= j < |m| ==> m[j] == digits[j - |head|];
  }

  /** Such a message, with no earlier match of either pattern and no
      parser tag, is reported as its description at the converted offset. */
  lemma OffsetMessageReported(text: string, pre: string, n: nat)
    requires var m := pre + " at position " + Stringify.NatToString(n);
      !LiteralAt(m, 0, "json.parse:") &&
      (forall j :: 0 <= j <= |m| ==> LineColumnCapture(m, j).None?) &&
      (forall j :: 0 <= j < |pre| + 4 ==> PositionCapture(m, j).None?) &&
      (forall j :: 0 <= j < |pre| ==> !PositionSuffixAt(m, j)) &&
      (forall j :: !LineColumnSuffixAt(pre, j))
    ensures var m := pre + " at position " + Stringify.NatToString(n);
      Location(text, m) == LineColumnAt(text, n) && CleanMessage(m) == pre
  {
    var m := pre + " at position " + Stringify.NatToString(n);
    OffsetSuffixRead(pre, n);
    assert m[..|pre|] == pre;
    SuffixMessageReported(text, m, |pre|, n);
  }

  /** A message with an offset suffix starting at p, matched nowhere
      earlier: the offset is converted and the message cut at p. */
  lemma SuffixMessageReported(text: string, m: string, p: nat, n: nat)
    requires PositionCapture(m, p + 4) == Some(n) && PositionSuffixAt(m, p)
    requires !LiteralAt(m, 0, "json.parse:")
    requires forall j :: 0 <= j <= |m| ==> LineColumnCapture(m, j).None?
    requires forall j :: 0 <= j < p + 4 ==> PositionCapture(m, j).None?
    requires forall j :: 0 <= j < p ==> !PositionSuffixAt(m, j)
    requires forall j :: !LineColumnSuffixAt(m[..p], j)
    ensures Location(text, m) == LineColumnAt(text, n)
    ensures CleanMessage(m) == m[..p]
  {
    OffsetConverted(text, m, p + 4, n);
    OffsetSuffixCut(m, p);
  }

  lemma OffsetSuffixCut(m: string, p: nat)
    requires p <= |m| && PositionSuffixAt(m, p)
    requires !LiteralAt(m, 0, "json.parse:")
    requires forall j :: 0 <= j < p ==> !PositionSuffixAt(m, j)
    requires forall j :: !LineColumnSuffixAt(m[..p], j)
    ensures CleanMessage(m) == m[..p]
  {
    assert StripParsePrefix(m) == m;
    assert forall j :: 0 <= j < p ==> !PositionSuffixStartsAt(m)(j);
    FindFromLeftmost(0, |m|, PositionSuffixStartsAt(m), p);
    assert FindFrom(0, p, LineColumnSuffixStartsAt(m[..p])).None?;
  }

  // ---------------------------------------------------------------------
  // A message in Firefox's format,
  // "JSON.parse: <description> at line L column C of the JSON data".

  /** Such a message, whose description starts with no whitespace and
      holds no earlier match, is reported as its description at the line
      and column it names. */
  lemma LineColumnMessageReported(text: string, desc: string, l: nat, c: nat)
    requires |desc| >= 1 && !IsSpace(desc[0])
    requires var r := FirefoxRest(desc, l, c);
      (forall j :: 0 <= j < 16 + |desc| ==> LineColumnCapture("JSON.parse: " + r, j).None?) &&
      (forall j :: !PositionSuffixAt(r, j)) &&
      (forall j :: 0 <= j < |desc| ==> !LineColumnSuffixAt(r, j))
    ensures Location(text, "JSON.parse: " + FirefoxRest(desc, l, c)) == (l, c)
    ensures CleanMessage("JSON.parse: " + FirefoxRest(desc, l, c)) == desc
  {
    TaggedMessageLocated(text, desc, l, c);
    TaggedMessageCleaned(desc, l, c);
  }

  /** What follows "JSON.parse: " in Firefox's message. */
  function FirefoxRest(desc: string, l: nat, c: nat): string {
    desc + " at line " + Stringify.NatToString(l) + " column " +
    Stringify.NatToString(c) + " of the JSON data"
  }

  lemma TaggedMessageLocated(text: string, desc: string, l: nat, c: nat)
    requires forall j :: 0 <= j < 16 + |desc| ==>
      LineColumnCapture("JSON.parse: " + FirefoxRest(desc, l, c), j).None?
    ensures Location(text, "JSON.parse: " + FirefoxRest(desc, l, c)) == (l, c)
  {
    var post := " of the JSON data";
    var d1, d2 := Stringify.NatToString(l), Stringify.NatToString(c);
    assert NoLineTerminatorFrom(post, 0);
    LineColumnSuffixRead("JSON.parse: " + desc, l, c, post);
    TaggedMessageLayout(desc, d1, d2, post);
    ExplicitLineColumnWins(text, "JSON.parse: " + FirefoxRest(desc, l, c), 16 + |desc|, l, c);
  }

  lemma TaggedMessageCleaned(desc: string, l: nat, c: nat)
    requires |desc| >= 1 && !IsSpace(desc[0])
    requires forall j :: !PositionSuffixAt(FirefoxRest(desc, l, c), j)
    requires forall j :: 0 <= j < |desc| ==> !LineColumnSuffixAt(FirefoxRest(desc, l, c), j)
    ensures CleanMessage("JSON.parse: " + FirefoxRest(desc, l, c)) == desc
  {
    var post := " of the JSON data";
    var d1, d2 := Stringify.NatToString(l), Stringify.NatToString(c);
    assert NoLineTerminatorFrom(post, 0);
    LineColumnSuffixRead(desc, l, c, post);
    TaggedMessageLayout(desc, d1, d2, post);
    LineColumnSuffixCut(desc, FirefoxRest(desc, l, c));
  }

  lemma TaggedMessageLayout(desc: string, d1: string, d2: string, post: string)
    ensures var r := desc + " at line " + d1 + " column " + d2 + post;
      "JSON.parse: " + desc + " at line " + d1 + " column " + d2 + post == "JSON.parse: " + r &&
      |desc| <= |r| && r[..|desc|] == desc
  {
    var r := desc + " at line " + d1 + " column " + d2 + post;
    assert r == desc + (" at line " + d1 + " column " + d2 + post);
  }

  /** The tag goes, no offset suffix is cut, and the line-and-column
      suffix is cut where it starts. */
  lemma LineColumnSuffixCut(desc: string, r: string)
    requires 1 <= |desc| <= |r| && r[..|desc|] == desc && !IsSpace(desc[0])
    requires LineColumnSuffixAt(r, |desc|)
    requires forall j :: !PositionSuffixAt(r, j)
    requires forall j :: 0 <= j < |desc| ==> !LineColumnSuffixAt(r, j)
    ensures CleanMessage("JSON.parse: " + r) == desc
  {
    ParseTagStripped(r);
    assert FindFrom(0, |r|, PositionSuffixStartsAt(r)).None?;
    assert forall j :: 0 <= j < |desc| ==> !LineColumnSuffixStartsAt(r)(j);
    FindFromLeftmost(0, |r|, LineColumnSuffixStartsAt(r), |desc|);
  }

  /** "JSON.parse: " goes from the front of a message whose rest starts
      with no whitespace. */
  lemma ParseTagStripped(r: string)
    requires |r| >= 1 && !IsSpace(r[0])
    ensures StripParsePrefix("JSON.parse: " + r) == r
  {
    var m := "JSON.parse: " + r;
    assert m == "JSON.parse:" + " " + r;
    LiteralOf("JSON.parse:", "json.parse:", " " + r);
    assert m[11] == ' ' && m[12] == r[0];
    assert Skip(m, 11, IsSpace) == 12;
    assert m[12..] == r;
  }

  /** A literal written with upper-case letters is found by its
      lower-case form. */
  lemma LiteralOf(word: string, lit: string, rest: string)
    requires |word| == |lit| && forall j :: 0 <= j < |lit| ==> LowerAscii(word[j]) == lit[j]
    ensures LiteralAt(word + rest, 0, lit)
  {
    assert forall j :: 0 <= j < |lit| ==> (word + rest)[j] == word[j];
  }

  /** The line and column written after " at line " and " column " are
      read back, and the suffix is recognized where it starts. */
  lemma LineColumnSuffixRead(pre: string, l: nat, c: nat, post: string)
    requires |post| == 0 || !IsDigit(post[0])
    requires NoLineTerminatorFrom(post, 0)
    ensures var m := pre + " at line " + Stringify.NatToString(l) + " column " +
                     Stringify.NatToString(c) + post;
      LineColumnCapture(m, |pre| + 4) == Some((l, c)) && LineColumnSuffixAt(m, |pre|)
  {
    var d1, d2 := Stringify.NatToString(l), Stringify.NatToString(c);
    DecimalValueOfNatToString(l);
    DecimalValueOfNatToString(c);
    CaptureInMessage(pre, d1, d2, post);
    SuffixInMessage(pre, d1, d2, post);
  }

  lemma CaptureInMessage(pre: string, d1: string, d2: string, post: string)
    requires |d1| >= 1 && forall j :: 0 <= j < |d1| ==> IsDigit(d1[j])
    requires |d2| >= 1 && forall j :: 0 <= j < |d2| ==> IsDigit(d2[j])
    requires |post| == 0 || !IsDigit(post[0])
    requires NoLineTerminatorFrom(post, 0)
    ensures LineColumnCapture(pre + " at line " + d1 + " column " + d2 + post, |pre| + 4)
         == Some((DecimalValue(d1), DecimalValue(d2)))
  {
    var m := pre + " at line " + d1 + " column " + d2 + post;
    LineTagInMessage(pre, d1, d2, post);
    ColumnTagInMessage(pre, d1, d2, post);
    LineDigitsInMessage(pre, d1, d2, post);
    ColumnDigitsInMessage(pre, d1, d2, post);
    CaptureFromLayout(m, |pre|, |pre| + 9 + |d1|, d1, d2);
  }

  lemma CaptureFromLayout(m: string, p: nat, q: nat, d1: string, d2: string)
    requires |d1| >= 1 && |d2| >= 1 && q == p + 9 + |d1| && q + 8 + |d2| <= |m|
    requires forall j :: 0 <= j < |d1| ==> IsDigit(d1[j])
    requires forall j :: 0 <= j < |d2| ==> IsDigit(d2[j])
    requires LiteralAt(m, p + 4, "line") && m[p + 8] == ' '
    requires Skip(m, p + 9, IsDigit) == q && m[p + 9..q] == d1
    requires m[q] == ' ' && m[q + 1] == 'c' && LiteralAt(m, q + 1, "column") && m[q + 7] == ' '
    requires Skip(m, q + 8, IsDigit) == q + 8 + |d2| && m[q + 8..q + 8 + |d2|] == d2
    ensures LineColumnCapture(m, p + 4) == Some((DecimalValue(d1), DecimalValue(d2)))
  {
    SpacedNumberAt(m, p + 8, q, d1);
    ColumnOfLayout(m, q, d2);
  }

  lemma ColumnOfLayout(m: string, q: nat, d2: string)
    requires |d2| >= 1 && q + 8 + |d2| <= |m|
    requires forall j :: 0 <= j < |d2| ==> IsDigit(d2[j])
    requires m[q] == ' ' && m[q + 1] == 'c' && LiteralAt(m, q + 1, "column") && m[q + 7] == ' '
    requires Skip(m, q + 8, IsDigit) == q + 8 + |d2| && m[q + 8..q + 8 + |d2|] == d2
    ensures ColumnCapture(m, q) == Some(DecimalValue(d2))
  {
    ColumnGap(m, q);
    SpacedNumberAt(m, q + 7, q + 8 + |d2|, d2);
  }

  lemma ColumnGap(m: string, q: nat)
    requires q + 1 < |m| && m[q] == ' ' && m[q + 1] == 'c'
    ensures Skip(m, q, IsSpace) == q + 1
  {
    SkipToEndOfRun(m, q, q + 1, IsSpace);
  }

  lemma SuffixInMessage(pre: string, d1: string, d2: string, post: string)
    requires |d1| >= 1 && forall j :: 0 <= j < |d1| ==> IsDigit(d1[j])
    requires |d2| >= 1 && forall j :: 0 <= j < |d2| ==> IsDigit(d2[j])
    requires |post| == 0 || !IsDigit(post[0])
    requires NoLineTerminatorFrom(post, 0)
    ensures LineColumnSuffixAt(pre + " at line " + d1 + " column " + d2 + post, |pre|)
  {
    var m := pre + " at line " + d1 + " column " + d2 + post;
    LineTagInMessage(pre, d1, d2, post);
    ColumnTagInMessage(pre, d1, d2, post);
    LineDigitsInMessage(pre, d1, d2, post);
    ColumnDigitsInMessage(pre, d1, d2, post);
    SuffixOfLineColumn(m, |pre|, |pre| + 9 + |d1|);
  }

  lemma LineTagInMessage(pre: string, d1: string, d2: string, post: string)
    ensures var m := pre + " at line " + d1 + " column " + d2 + post;
      LiteralAt(m, |pre| + 4, "line") && LiteralAt(m, |pre| + 1, "at line ") &&
      m[|pre|] == ' ' && m[|pre| + 1] == 'a' && m[|pre| + 8] == ' '
  {
    var rest := d1 + " column " + d2 + post;
    assert pre + " at line " + d1 + " column " + d2 + post == pre + " at line " + rest;
    LineTagFacts(pre, rest);
  }

  lemma ColumnTagInMessage(pre: string, d1: string, d2: string, post: string)
    ensures var m := pre + " at line " + d1 + " column " + d2 + post;
      var q := |pre| + 9 + |d1|;
      LiteralAt(m, q, " column ") && LiteralAt(m, q + 1, "column") &&
      m[q] == ' ' && m[q + 1] == 'c' && m[q + 7] == ' '
  {
    var x := pre + " at line " + d1;
    assert pre + " at line " + d1 + " column " + d2 + post == x + " column " + (d2 + post);
    ColumnTagFacts(x, d2 + post);
  }

  lemma LineDigitsInMessage(pre: string, d1: string, d2: string, post: string)
    requires |d1| >= 1 && forall j :: 0 <= j < |d1| ==> IsDigit(d1[j])
    ensures var m := pre + " at line " + d1 + " column " + d2 + post;
      var p, q := |pre|, |pre| + 9 + |d1|;
      Skip(m, p + 9, IsDigit) == q && m[p + 9..q] == d1 && IsDigit(m[p + 9])
  {
    var x := pre + " at line ";
    var y := " column " + d2 + post;
    assert pre + " at line " + d1 + " column " + d2 + post == x + d1 + y;
    DigitRun(x, d1, y);
    assert (x + d1 + y)[|x|] == d1[0];
  }

  lemma ColumnDigitsInMessage(pre: string, d1: string, d2: string, post: string)
    requires |d2| >= 1 && forall j :: 0 <= j < |d2| ==> IsDigit(d2[j])
    requires |post| == 0 || !IsDigit(post[0])
    requires NoLineTerminatorFrom(post, 0)
    ensures var m := pre + " at line " + d1 + " column " + d2 + post;
      var q := |pre| + 9 + |d1|;
      q + 8 + |d2| <= |m| &&
      Skip(m, q + 8, IsDigit) == q + 8 + |d2| && m[q + 8..q + 8 + |d2|] == d2 &&
      NoLineTerminatorFrom(m, q + 8)
  {
    var y := pre + " at line " + d1 + " column ";
    DigitRun(y, d2, post);
  }

  /** Where the pieces of " at line " sit in the message. */
  lemma LineTagFacts(pre: string, rest: string)
    ensures var m := pre + " at line " + rest;
      LiteralAt(m, |pre| + 4, "line") && LiteralAt(m, |pre| + 1, "at line ") &&
      m[|pre|] == ' ' && m[|pre| + 1] == 'a' && m[|pre| + 8] == ' '
  {
    var m := pre + " at line " + rest;
    assert m == (pre + " at ") + "line" + (" " + rest);
    LiteralInside(pre + " at ", "line", " " + rest);
    assert m == (pre + " ") + "at line " + rest;
    LiteralInside(pre + " ", "at line ", rest);
  }

  /** Where the pieces of " column " sit in the message. */
  lemma ColumnTagFacts(x: string, rest: string)
    ensures var m := x + " column " + rest;
      LiteralAt(m, |x|, " column ") && LiteralAt(m, |x| + 1, "column") &&
      m[|x|] == ' ' && m[|x| + 1] == 'c' && m[|x| + 7] == ' '
  {
    var m := x + " column " + rest;
    LiteralInside(x, " column ", rest);
    assert m == (x + " ") + "column" + (" " + rest);
    LiteralInside(x + " ", "column", " " + rest);
  }

  /** A run of digits placed before something that is not a digit ends
      where it was put. */
  lemma DigitRun(x: string, d: string, y: string)
    requires |d| >= 1 && forall j :: 0 <= j < |d| ==> IsDigit(d[j])
    requires |y| == 0 || !IsDigit(y[0])
    ensures Skip(x + d + y, |x|, IsDigit) == |x| + |d|
    ensures (x + d + y)[|x|..|x| + |d|] == d
    ensures NoLineTerminatorFrom(y, 0) ==> NoLineTerminatorFrom(x + d + y, |x|)
  {
    var m := x + d + y;
    var n := |x| + |d|;
    assert forall j :: |x| <= j < n ==> m[j] == d[j - |x|];
    assert forall j :: n <= j < |m| ==> m[j] == y[j - n];
    assert n < |m| ==> m[n] == y[0];
    SkipToEndOfRun(m, |x|, n, IsDigit);
    assert m[|x|..n] == d;
  }

  /** One space, then digits d: the number d spells and where it ends. */
  lemma SpacedNumberAt(m: string, a: nat, e: nat, d: string)
    requires |d| >= 1 && e == a + 1 + |d| && e <= |m|
    requires forall j :: 0 <= j < |d| ==> IsDigit(d[j])
    requires m[a] == ' ' && Skip(m, a + 1, IsDigit) == e && m[a + 1..e] == d
    ensures SpacedNumber(m, a) == Some((DecimalValue(d), e))
  {
    assert IsDigit(m[a + 1]) by { assert m[a + 1] == d[0]; }
    SkipToEndOfRun(m, a, a + 1, IsSpace);
  }

  lemma SuffixOfLineColumn(m: string, p: nat, q: nat)
    requires p + 9 < q && q + 8 < |m|
    requires m[p] == ' ' && m[p + 1] == 'a' && LiteralAt(m, p + 1, "at line ")
    requires IsDigit(m[p + 9]) && Skip(m, p + 9, IsDigit) == q
    requires LiteralAt(m, q, " column ") && IsDigit(m[q + 8]) && NoLineTerminatorFrom(m, q + 8)
    ensures LineColumnSuffixAt(m, p)
  {
    assert Skip(m, p, IsSpace) == p + 1;
  }

  /** parseInt reads back the decimal digits of every natural number. */
  lemma {:induction false} DecimalValueOfNatToString(n: nat)
    ensures DecimalValue(Stringify.NatToString(n)) == n
    decreases n
  {
    if n >= 10 {
      var d := Stringify.NatToString(n / 10);
      var c := ((('0' as int) + n % 10) as char);
      DecimalValueOfNatToString(n / 10);
      DecimalValueOfDigits(d, c);
      assert Stringify.NatToString(n) == d + [c];
    }
  }

  /** The trailing comma of {"a":1,}, reported at offset 7, is at line 1,
      column 8; in a text of three lines, offset 9 starts line 3. */
  lemma OffsetExamples()
    ensures LineColumnAt("{\"a\":1,}", 7) == (1, 8)
    ensures LineColumnAt("{\n\"a\":1,\n}", 9) == (3, 1)
  {
    OneLineExample();
    ThreeLineExample();
  }

  lemma OneLineExample()
    ensures LineColumnAt("{\"a\":1,}", 7) == (1, 8)
  {
    var t := "{\"a\":1,}";
    assert '\n' !in t[..7];
    NewlineCountNone(t[..7]);
    LineStartWithoutNewline(t, 7);
  }

  lemma ThreeLineExample()
    ensures LineColumnAt("{\n\"a\":1,\n}", 9) == (3, 1)
  {
    var t := "{\n\"a\":1,\n}";
    assert t[8] == '\n';
    var head, line := "{\n", "\"a\":1,\n";
    assert t[..9] == head + line;
    NewlineCountConcat(head, line);
    assert NewlineCount(line) == 1 by {
      assert line == "\"a\":1," + "\n";
      NewlineCountConcat("\"a\":1,", "\n");
      NewlineCountNone("\"a\":1,");
    }
  }

  /** Blank text yields no problem whatever the parser says. */
  lemma BlankExamples()
    ensures Trim("") == [] && Trim("   ") == []
  {
    TrimIsEmptyIffBlank("   ");
  }
}
