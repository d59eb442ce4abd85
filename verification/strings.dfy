/** The JavaScript string primitives the application relies on: toLowerCase
    (as far as the keyword tests can observe it), includes/indexOf, trim,
    split('\n') and join('\n'). Strings are sequences of characters. */
module Strings {

  datatype Option<T> = None | Some(value: T)

  /* ---------------- lower-casing ---------------- */

  /** Lower-case mapping of one character: ASCII capitals and the Kelvin sign
      (U+212A, whose lower case is the ASCII 'k') are mapped; every other
      character is left unchanged. */
  function LowerChar(c: char): (r: char)
    ensures 'A' <= c <= 'Z' ==> r as int == c as int + 32
    ensures c == '\U{212A}' ==> r == 'k'
    ensures !('A' <= c <= 'Z') && c != '\U{212A}' ==> r == c
  {
    if 'A' <= c <= 'Z' then (c as int + 32) as char
    else if c == '\U{212A}' then 'k'
    else c
  }

  /** String.prototype.toLowerCase, character by character: the length is
      kept and no ASCII capital or Kelvin sign remains. */
  function Lower(s: string): (r: string)
    ensures |r| == |s|
    ensures forall i :: 0 <= i < |s| ==> r[i] == LowerChar(s[i])
    ensures forall i :: 0 <= i < |r| ==> !('A' <= r[i] <= 'Z') && r[i] != '\U{212A}'
  {
    seq(|s|, i requires 0 <= i < |s| => LowerChar(s[i]))
  }

  /** Lower-casing twice is lower-casing once. */
  lemma LowerIdempotent(s: string)
    ensures Lower(Lower(s)) == Lower(s)
  {
    var once := Lower(s);
    forall i | 0 <= i < |once| ensures LowerChar(once[i]) == once[i] {
      assert !('A' <= once[i] <= 'Z') && once[i] != '\U{212A}';
    }
  }

  /** Lower-casing a slice is slicing the lower-cased string. */
  lemma LowerSlice(s: string, i: nat, j: nat)
    requires i <= j <= |s|
    ensures Lower(s[i..j]) == Lower(s)[i..j]
  {
    var w := s[i..j];
    var a, l := Lower(w), Lower(s);
    var b := l[i..j];
    assert |a| == |b| == j - i;
    forall k | 0 <= k < j - i ensures a[k] == b[k] {
      assert w[k] == s[i + k];
      assert a[k] == LowerChar(w[k]);
      assert b[k] == l[i + k] == LowerChar(s[i + k]);
    }
  }

  /** Two strings that differ only in letter case. */
  predicate SameIgnoringCase(a: string, b: string)
  {
    |a| == |b| && forall i :: 0 <= i < |a| ==> LowerChar(a[i]) == LowerChar(b[i])
  }

  lemma {:induction false} SameIgnoringCaseLower(a: string, b: string)
    ensures SameIgnoringCase(a, b) <==> Lower(a) == Lower(b)
  {
    if SameIgnoringCase(a, b) {
      assert |Lower(a)| == |Lower(b)|;
      forall i | 0 <= i < |a| ensures Lower(a)[i] == Lower(b)[i] { }
    }
    if Lower(a) == Lower(b) {
      forall i | 0 <= i < |a| ensures LowerChar(a[i]) == LowerChar(b[i]) {
        assert Lower(a)[i] == Lower(b)[i];
      }
    }
  }

  /* ---------------- substring search ---------------- */

  /** k occurs in s at position j. */
  predicate OccursAt(s: string, k: string, j: int)
  {
    0 <= j && j + |k| <= |s| && s[j..j + |k|] == k
  }

  /** The first occurrence of k in s at or after position i. */
  function IndexFrom(s: string, k: string, i: nat): (r: Option<nat>)
    requires i <= |s|
    ensures r.Some? ==> i <= r.value && OccursAt(s, k, r.value)
    ensures r.Some? ==> forall j :: i <= j < r.value ==> !OccursAt(s, k, j)
    ensures r.None? ==> forall j :: i <= j ==> !OccursAt(s, k, j)
    decreases |s| - i
  {
    if OccursAt(s, k, i) then Some(i)
    else if i == |s| then None
    else IndexFrom(s, k, i + 1)
  }

  /** String.prototype.indexOf: the position of the first occurrence of k in s. */
  function IndexOf(s: string, k: string): (r: Option<nat>)
    ensures r.Some? ==> OccursAt(s, k, r.value) && forall j :: 0 <= j < r.value ==> !OccursAt(s, k, j)
    ensures r.None? ==> forall j :: !OccursAt(s, k, j)
  {
    IndexFrom(s, k, 0)
  }

  /** String.prototype.includes. */
  function Contains(s: string, k: string): (r: bool)
    ensures r <==> exists j :: OccursAt(s, k, j)
  {
    IndexOf(s, k).Some?
  }

  /** k occurs in s at position j, ignoring letter case. */
  predicate OccursAtIgnoringCase(s: string, k: string, j: int)
  {
    0 <= j && j + |k| <= |s| && SameIgnoringCase(s[j..j + |k|], k)
  }

  /** An occurrence of a lower-case keyword in the lower-cased string is an
      occurrence of the keyword in the original string, ignoring case, and
      conversely. */
  lemma ContainsLower(s: string, k: string)
    requires forall i :: 0 <= i < |k| ==> LowerChar(k[i]) == k[i]
    ensures Contains(Lower(s), k) <==> exists j :: OccursAtIgnoringCase(s, k, j)
  {
    if Contains(Lower(s), k) {
      var j :| OccursAt(Lower(s), k, j);
      OccursAtLower(s, k, j);
    }
    if exists j :: OccursAtIgnoringCase(s, k, j) {
      var j :| OccursAtIgnoringCase(s, k, j);
      OccursAtLower(s, k, j);
    }
  }

  lemma OccursAtLower(s: string, k: string, j: int)
    requires forall i :: 0 <= i < |k| ==> LowerChar(k[i]) == k[i]
    ensures OccursAt(Lower(s), k, j) <==> OccursAtIgnoringCase(s, k, j)
  {
    assert Lower(k) == k;
    if 0 <= j && j + |k| <= |s| {
      var w := s[j..j + |k|];
      LowerSlice(s, j, j + |k|);
      SameIgnoringCaseLower(w, k);
      assert OccursAt(Lower(s), k, j) <==> Lower(w) == k;
    }
  }

  /* ---------------- trim ---------------- */

  /** ECMAScript WhiteSpace and LineTerminator code points: what trim removes. */
  predicate IsSpace(c: char)
  {
    c == '\t' || c == '\n' || c == '\U{000B}' || c == '\U{000C}' || c == '\r' || c == ' '
    || c == '\U{00A0}' || c == '\U{1680}' || ('\U{2000}' <= c <= '\U{200A}')
    || c == '\U{2028}' || c == '\U{2029}' || c == '\U{202F}' || c == '\U{205F}'
    || c == '\U{3000}' || c == '\U{FEFF}'
  }

  /** A string with no white space at either end. */
  predicate Trimmed(s: string)
  {
    s == [] || (!IsSpace(s[0]) && !IsSpace(s[|s| - 1]))
  }

  /** Removes leading white space. */
  function TrimStart(s: string): (r: string)
    ensures r == [] || !IsSpace(r[0])
  {
    if s != [] && IsSpace(s[0]) then TrimStart(s[1..]) else s
  }

  /** Removes trailing white space. */
  function TrimEnd(s: string): (r: string)
    ensures r == [] || !IsSpace(r[|r| - 1])
  {
    if s != [] && IsSpace(s[|s| - 1]) then TrimEnd(s[..|s| - 1]) else s
  }

  /** What TrimStart cuts off is a run of white space at the front. */
  lemma {:induction false} TrimStartCuts(s: string)
    ensures |TrimStart(s)| <= |s| && TrimStart(s) == s[|s| - |TrimStart(s)|..]
    ensures forall i :: 0 <= i < |s| - |TrimStart(s)| ==> IsSpace(s[i])
  {
    if s != [] && IsSpace(s[0]) {
      TrimStartCuts(s[1..]);
    }
  }

  /** What TrimEnd cuts off is a run of white space at the back. */
  lemma {:induction false} TrimEndCuts(s: string)
    ensures |TrimEnd(s)| <= |s| && TrimEnd(s) == s[..|TrimEnd(s)|]
    ensures forall i :: |TrimEnd(s)| <= i < |s| ==> IsSpace(s[i])
  {
    if s != [] && IsSpace(s[|s| - 1]) {
      TrimEndCuts(s[..|s| - 1]);
    }
  }

  /** String.prototype.trim. */
  function Trim(s: string): (r: string)
    ensures Trimmed(r)
  {
    TrimEndCuts(TrimStart(s));
    TrimEnd(TrimStart(s))
  }

  /** Every character of s from lo up to hi is white space. */
  predicate AllSpace(s: string, lo: int, hi: int)
    requires 0 <= lo <= hi <= |s|
  {
    forall p :: lo <= p < hi ==> IsSpace(s[p])
  }

  /** The trimmed string is the slice of s left when the white space at both
      ends is cut off. */
  lemma TrimCuts(s: string)
    ensures exists i, j :: 0 <= i <= j <= |s| && Trim(s) == s[i..j] && AllSpace(s, 0, i) && AllSpace(s, j, |s|)
  {
    TrimMiddle(s);
    TrimFront(s);
    TrimBack(s);
    var i := |s| - |TrimStart(s)|;
    var j := i + |Trim(s)|;
    assert Trim(s) == s[i..j] && AllSpace(s, 0, i) && AllSpace(s, j, |s|);
  }

  /** The trimmed string starts where TrimStart cut the front. */
  lemma TrimMiddle(s: string)
    ensures |TrimStart(s)| <= |s|
    ensures |s| - |TrimStart(s)| + |Trim(s)| <= |s|
    ensures Trim(s) == s[|s| - |TrimStart(s)|..|s| - |TrimStart(s)| + |Trim(s)|]
  {
    var t := TrimStart(s);
    var i := |s| - |t|;
    TrimStartCuts(s);
    var r := TrimEnd(t);
    TrimEndCuts(t);
    assert Trim(s) == r;
    assert t[..|r|] == s[i..i + |r|];
  }

  /** Everything before the trimmed string is white space. */
  lemma TrimFront(s: string)
    ensures 0 <= |s| - |TrimStart(s)| <= |s|
    ensures AllSpace(s, 0, |s| - |TrimStart(s)|)
  {
    TrimStartCuts(s);
  }

  /** Everything after the trimmed string is white space. */
  lemma TrimBack(s: string)
    ensures 0 <= |s| - |TrimStart(s)| + |Trim(s)| <= |s|
    ensures AllSpace(s, |s| - |TrimStart(s)| + |Trim(s)|, |s|)
  {
    var t := TrimStart(s);
    TrimStartCuts(s);
    TrimEndCuts(t);
    var i := |s| - |t|;
    forall p | i + |Trim(s)| <= p < |s| ensures IsSpace(s[p]) {
      assert s[p] == t[p - i];
    }
  }

  lemma TrimStartTrimmed(s: string)
    requires Trimmed(s)
    ensures TrimStart(s) == s
  {
  }

  lemma TrimEndTrimmed(s: string)
    requires Trimmed(s)
    ensures TrimEnd(s) == s
  {
  }

  /** Trimming a trimmed string changes nothing; so trim is idempotent. */
  lemma TrimOfTrimmed(s: string)
    requires Trimmed(s)
    ensures Trim(s) == s
  {
    TrimStartTrimmed(s);
    TrimEndTrimmed(s);
  }

  /** Every character of the trimmed string is a character of the input. */
  lemma TrimChars(s: string, c: char)
    requires c in Trim(s)
    ensures c in s
  {
    TrimCuts(s);
  }

  /* ---------------- split and join ---------------- */

  /** String.prototype.split('\n'): the pieces between newline characters.
      There is always at least one piece; the empty string gives [""]. */
  function Split(s: string): (r: seq<string>)
    ensures |r| >= 1
    ensures forall k :: 0 <= k < |r| ==> '\n' !in r[k]
    ensures Join(r) == s
  {
    if s == [] then [""]
    else
      var rest := Split(s[1..]);
      if s[0] == '\n' then [""] + rest
      else [[s[0]] + rest[0]] + rest[1..]
  }

  /** Array.prototype.join('\n'). */
  function Join(lines: seq<string>): (r: string)
  {
    if |lines| == 0 then ""
    else if |lines| == 1 then lines[0]
    else lines[0] + "\n" + Join(lines[1..])
  }

  /** Every character of a join is a newline or a character of one of the lines. */
  lemma {:induction false} JoinChars(lines: seq<string>, c: char)
    requires c in Join(lines) && c != '\n'
    ensures exists k :: 0 <= k < |lines| && c in lines[k]
  {
    if |lines| > 1 {
      if c !in lines[0] {
        JoinChars(lines[1..], c);
        var k :| 0 <= k < |lines[1..]| && c in lines[1..][k];
        assert c in lines[k + 1];
      }
    }
  }

  /** Every character of a line is a character of the join. */
  lemma {:induction false} LineCharsInJoin(lines: seq<string>, k: nat, c: char)
    requires k < |lines| && c in lines[k]
    ensures c in Join(lines)
  {
    if k > 0 {
      LineCharsInJoin(lines[1..], k - 1, c);
    }
  }

  /** The join of non-empty lines is empty exactly when there are no lines. */
  lemma JoinEmpty(lines: seq<string>)
    requires forall k :: 0 <= k < |lines| ==> lines[k] != []
    ensures Join(lines) == [] <==> lines == []
  {
  }

  /** Splitting undoes joining, for at least one line and lines without a newline. */
  lemma {:induction false} SplitJoin(lines: seq<string>)
    requires |lines| >= 1
    requires forall k :: 0 <= k < |lines| ==> '\n' !in lines[k]
    ensures Split(Join(lines)) == lines
  {
    if |lines| == 1 {
      SplitNoNewline(lines[0]);
    } else {
      var tail := lines[1..];
      SplitJoin(tail);
      SplitAppend(lines[0], Join(tail));
    }
  }

  /** A string without a newline splits into itself alone. */
  lemma {:induction false} SplitNoNewline(s: string)
    requires '\n' !in s
    ensures Split(s) == [s]
  {
    if s != [] {
      SplitNoNewline(s[1..]);
    }
  }

  lemma {:induction false} SplitAppend(line: string, rest: string)
    requires '\n' !in line
    ensures Split(line + "\n" + rest) == [line] + Split(rest)
  {
    if line == [] {
      assert line + "\n" + rest == "\n" + rest;
      assert ("\n" + rest)[1..] == rest;
    } else {
      var whole := line + "\n" + rest;
      assert whole[0] == line[0] && whole[1..] == line[1..] + "\n" + rest;
      SplitAppend(line[1..], rest);
      assert [line[0]] + line[1..] == line;
    }
  }

  /** A string whose lines are all non-empty: it neither starts nor ends with a
      newline and never holds two newlines in a row. */
  predicate NoBlankLines(s: string)
  {
    (s != [] ==> s[0] != '\n' && s[|s| - 1] != '\n')
    && forall i :: 0 <= i < |s| - 1 ==> !(s[i] == '\n' && s[i + 1] == '\n')
  }

  lemma {:induction false} JoinNoBlankLines(lines: seq<string>)
    requires forall k :: 0 <= k < |lines| ==> lines[k] != [] && '\n' !in lines[k]
    ensures NoBlankLines(Join(lines))
    ensures lines != [] ==> Join(lines) != [] && Join(lines)[0] == lines[0][0]
  {
    if |lines| > 1 {
      var head, tail := lines[0], Join(lines[1..]);
      JoinNoBlankLines(lines[1..]);
      var s := head + "\n" + tail;
      assert Join(lines) == s;
      forall i | 0 <= i < |s| - 1 ensures !(s[i] == '\n' && s[i + 1] == '\n') {
        if i < |head| {
          assert s[i] == head[i];
        } else if i == |head| {
          assert s[i + 1] == tail[0];
        } else {
          assert s[i] == tail[i - |head| - 1] && s[i + 1] == tail[i - |head|];
        }
      }
      assert s[|s| - 1] == tail[|tail| - 1];
    } else if |lines| == 1 {
      assert forall i :: 0 <= i < |lines[0]| ==> lines[0][i] != '\n';
    }
  }
}
