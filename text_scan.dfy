// Character classes and scans over strings: what the validator's regular
// expressions, String.prototype.trim and String.prototype.split("\n") do,
// written as plain scans.

module TextScan {

  datatype Option<T> = None | Some(value: T)

  /** The characters `\s` matches and trim removes: WhiteSpace and
      LineTerminator of ECMA-262 (sections 12.2 and 12.3). */
  predicate IsSpace(c: char) {
    c == '\t' || c == '\n' || c == '\U{B}' || c == '\U{C}' || c == '\r' || c == ' ' ||
    c == '\U{A0}' || c == '\U{1680}' || ('\U{2000}' <= c <= '\U{200A}') ||
    c == '\U{2028}' || c == '\U{2029}' || c == '\U{202F}' || c == '\U{205F}' ||
    c == '\U{3000}' || c == '\U{FEFF}'
  }

  /** The characters `.` does not match. */
  predicate IsLineTerminator(c: char) {
    c == '\n' || c == '\r' || c == '\U{2028}' || c == '\U{2029}'
  }

  /** `\d`: an ASCII decimal digit. */
  predicate IsDigit(c: char) {
    '0' <= c <= '9'
  }

  predicate IsNotNewline(c: char) {
    c != '\n'
  }

  /** ASCII lower-casing, the case folding a non-unicode `/i` pattern
      applies to the ASCII letters it names. */
  function LowerAscii(c: char): char {
    if 'A' <= c <= 'Z' then ((c as int) + 32) as char else c
  }

  /** The lower-case literal `lit` occurs at index i of s, ignoring the
      case of ASCII letters. */
  predicate LiteralAt(s: string, i: nat, lit: string) {
    i + |lit| <= |s| && forall j :: 0 <= j < |lit| ==> LowerAscii(s[i + j]) == lit[j]
  }

  /** The end of the longest run of characters satisfying p from index i:
      a greedy `p*`. */
  function Skip(s: string, i: nat, p: char -> bool): (j: nat)
    requires i <= |s|
    ensures i <= j <= |s|
    ensures forall k :: i <= k < j ==> p(s[k])
    ensures j < |s| ==> !p(s[j])
    decreases |s| - i
  {
    if i == |s| || !p(s[i]) then i else Skip(s, i + 1, p)
  }

  /** A run of characters satisfying p from i to n, followed by one that
      does not (or by the end), is what Skip finds. */
  lemma {:induction false} SkipToEndOfRun(s: string, i: nat, n: nat, p: char -> bool)
    requires i <= n <= |s|
    requires forall j :: i <= j < n ==> p(s[j])
    requires n < |s| ==> !p(s[n])
    ensures Skip(s, i, p) == n
    decreases n - i
  {
    if i < n {
      SkipToEndOfRun(s, i + 1, n, p);
    }
  }

  /** parseInt(d, 10) for a string of decimal digits. */
  function DecimalValue(d: string): nat
    requires forall i :: 0 <= i < |d| ==> IsDigit(d[i])
  {
    if |d| == 0 then 0
    else
      var last := d[|d| - 1];
      assert IsDigit(last);
      DecimalValue(d[..|d| - 1]) * 10 + ((last as int) - ('0' as int))
  }

  /** The least index in [from, end] at which p holds: the leftmost start
      position a regular-expression search tries. */
  function FindFrom(from: nat, end: nat, p: nat -> bool): (r: Option<nat>)
    requires from <= end
    ensures r.Some? ==>
      from <= r.value <= end && p(r.value) && forall k :: from <= k < r.value ==> !p(k)
    ensures r.None? ==> forall k :: from <= k <= end ==> !p(k)
    decreases end - from
  {
    if p(from) then Some(from)
    else if from == end then None
    else FindFrom(from + 1, end, p)
  }

  /** A search stops at the first index that matches. */
  lemma {:induction false} FindFromLeftmost(from: nat, end: nat, p: nat -> bool, k: nat)
    requires from <= k <= end && p(k)
    requires forall j :: from <= j < k ==> !p(j)
    ensures FindFrom(from, end, p) == Some(k)
    decreases k - from
  {
    if from < k {
      FindFromLeftmost(from + 1, end, p, k);
    }
  }

  /** String.prototype.split("\n"). */
  function Split(s: string): (lines: seq<string>)
    ensures |lines| >= 1
    decreases |s|
  {
    var i := Skip(s, 0, IsNotNewline);
    if i == |s| then [s] else [s[..i]] + Split(s[i + 1..])
  }

  /** No line holds a newline: what splitting at newlines yields. */
  predicate NewlineFree(lines: seq<string>) {
    forall k :: 0 <= k < |lines| ==> '\n' !in lines[k]
  }

  /** Array.prototype.join("\n"), the inverse of Split. */
  function Join(lines: seq<string>): string
    requires |lines| >= 1
  {
    if |lines| == 1 then lines[0] else lines[0] + "\n" + Join(lines[1..])
  }

  /** No line of Split(s) holds a newline, and joining the lines with
      newlines gives s back. */
  lemma SplitJoinsBack(s: string)
    ensures NewlineFree(Split(s))
    ensures Join(Split(s)) == s
  {
    SplitIsNewlineFree(s);
    JoinOfSplit(s);
  }

  lemma {:induction false} SplitIsNewlineFree(s: string)
    ensures NewlineFree(Split(s))
    decreases |s|
  {
    var i := Skip(s, 0, IsNotNewline);
    var first := if i == |s| then s else s[..i];
    assert '\n' !in first by {
      assert forall k :: 0 <= k < |first| ==> first[k] == s[k];
    }
    if i < |s| {
      var rest := s[i + 1..];
      SplitIsNewlineFree(rest);
      assert Split(s) == [first] + Split(rest);
    }
  }

  lemma {:induction false} JoinOfSplit(s: string)
    ensures Join(Split(s)) == s
    decreases |s|
  {
    var i := Skip(s, 0, IsNotNewline);
    if i < |s| {
      var first, rest := s[..i], s[i + 1..];
      JoinOfSplit(rest);
      assert Split(s) == [first] + Split(rest);
      JoinCons(first, Split(rest));
      CutAtNewline(s, i);
    }
  }

  lemma CutAtNewline(s: string, i: nat)
    requires i < |s| && s[i] == '\n'
    ensures s == s[..i] + "\n" + s[i + 1..]
  {
    assert s == s[..i] + [s[i]] + s[i + 1..];
  }

  lemma JoinCons(first: string, rest: seq<string>)
    requires |rest| >= 1
    ensures Join([first] + rest) == first + "\n" + Join(rest)
  {
    assert ([first] + rest)[1..] == rest;
  }

  /** The first line of newline-joined text ends at the first newline. */
  lemma FirstLineEnds(first: string, tail: string)
    requires '\n' !in first
    ensures Skip(first + "\n" + tail, 0, IsNotNewline) == |first|
  {
    var s := first + "\n" + tail;
    assert forall k :: 0 <= k < |first| ==> s[k] == first[k];
    assert s[|first|] == '\n';
  }

  /** Splitting the newline-joined lines gives the lines back, when no
      line holds a newline. */
  lemma {:induction false} JoinSplitsBack(lines: seq<string>)
    requires |lines| >= 1
    requires NewlineFree(lines)
    ensures Split(Join(lines)) == lines
  {
    var s := Join(lines);
    var first := lines[0];
    assert '\n' !in first;
    if |lines| == 1 {
      assert s == first;
      FirstLineEndsText(first);
    } else {
      var rest := lines[1..];
      assert s == first + "\n" + Join(rest);
      FirstLineEnds(first, Join(rest));
      var i := |first|;
      assert s[..i] == first;
      assert s[i + 1..] == Join(rest);
      assert NewlineFree(rest) by {
        assert forall k :: 0 <= k < |rest| ==> rest[k] == lines[k + 1];
      }
      JoinSplitsBack(rest);
    }
  }

  /** A single line without newline is split into itself. */
  lemma FirstLineEndsText(first: string)
    requires '\n' !in first
    ensures Split(first) == [first]
  {
    assert Skip(first, 0, IsNotNewline) == |first| by {
      assert forall k :: 0 <= k < |first| ==> first[k] in first;
    }
  }

  /** Every value of the digit strings NatToString writes is parsed back. */
  lemma {:induction false} DecimalValueOfDigits(d: string, c: char)
    requires forall i :: 0 <= i < |d| ==> IsDigit(d[i])
    requires IsDigit(c)
    ensures DecimalValue(d + [c]) == DecimalValue(d) * 10 + ((c as int) - ('0' as int))
  {
    assert (d + [c])[..|d|] == d;
  }
}
