/**
 * The Python 2 byte-string operations the manifest code is built from:
 * slicing, `replace`, `splitlines`, `readlines`, `split`, `rsplit()[0]`
 * and the `<` ordering that `sorted` uses. A Python 2 `str` is a byte
 * string; here every byte is one `char`.
 */
module PyStr {
  import opened Common

  // ---------------------------------------------------------------------
  // Slices

  /** `s[:n]` for a non-negative `n`: the slice stops at the end of `s`. */
  function Take(s: string, n: nat): (r: string)
    ensures |r| == if n <= |s| then n else |s|
    ensures r <= s
  {
    if n <= |s| then s[..n] else s
  }

  /** `s[n:]` for a non-negative `n`: empty once `n` passes the end. */
  function Drop(s: string, n: nat): (r: string)
    ensures Take(s, n) + r == s
    ensures |r| == if n <= |s| then |s| - n else 0
  {
    if n <= |s| then s[n..] else []
  }

  /** `s[:-n]` for a positive `n`: all but the last `n` characters. */
  function DropLast(s: string, n: nat): (r: string)
    ensures r <= s
    ensures |r| == if n <= |s| then |s| - n else 0
  {
    if n <= |s| then s[..|s| - n] else []
  }

  // ---------------------------------------------------------------------
  // Searching

  /** `pat in s` for strings: `pat` occurs as a substring of `s`. */
  predicate Contains(s: string, pat: string)
    decreases |s|
  {
    pat <= s || (s != [] && Contains(s[1..], pat))
  }

  /** Index of the first `c` in `s`, or `|s|` when there is none. */
  function IndexOf(s: string, c: char): (i: nat)
    ensures i <= |s|
    ensures i < |s| ==> s[i] == c
    ensures c !in s[..i]
  {
    if s == [] then 0
    else if s[0] == c then 0
    else 1 + IndexOf(s[1..], c)
  }

  lemma {:induction false} IndexOfAbsent(s: string, c: char)
    requires c !in s
    ensures IndexOf(s, c) == |s|
  {
    if s != [] {
      IndexOfAbsent(s[1..], c);
    }
  }

  lemma {:induction false} IndexOfAppend(a: string, c: char, b: string)
    requires c !in a
    ensures IndexOf(a + [c] + b, c) == |a|
  {
    if a != [] {
      assert (a + [c] + b)[1..] == a[1..] + [c] + b;
      IndexOfAppend(a[1..], c, b);
    }
  }

  // ---------------------------------------------------------------------
  // replace

  /** `s.replace(pat, '')`: one left-to-right pass deleting the
    * non-overlapping occurrences of `pat`; an empty `pat` changes nothing. */
  function RemoveAll(s: string, pat: string): (r: string)
    ensures |r| <= |s|
    ensures pat == [] ==> r == s
    decreases |s|
  {
    if pat == [] || |s| < |pat| then s
    else if s[..|pat|] == pat then RemoveAll(s[|pat|..], pat)
    else [s[0]] + RemoveAll(s[1..], pat)
  }

  /** A leading occurrence of `pat` is deleted and the scan resumes after it. */
  lemma RemoveAllLeading(pat: string, s: string)
    requires pat != []
    ensures RemoveAll(pat + s, pat) == RemoveAll(s, pat)
  {
    assert (pat + s)[..|pat|] == pat;
    assert (pat + s)[|pat|..] == s;
  }

  /** No occurrence of `pat` in `a + b` starts inside `a`. */
  predicate NoMatchIn(a: string, b: string, pat: string) {
    a == [] || (!(pat <= a + b) && NoMatchIn(a[1..], b, pat))
  }

  /** A prefix in which no occurrence of `pat` starts is kept as it is, and
    * the deletion goes on in what follows. */
  lemma {:induction false} RemoveAllKeepsPrefix(a: string, b: string, pat: string)
    requires pat != [] && NoMatchIn(a, b, pat)
    ensures RemoveAll(a + b, pat) == a + RemoveAll(b, pat)
    decreases |a|
  {
    if a != [] {
      var ab := a + b;
      ConsTail(a, ab, b);
      RemoveAllNoMatchHead(ab, pat);
      RemoveAllKeepsPrefix(a[1..], b, pat);
      ConsJoin(a, RemoveAll(ab, pat), RemoveAll(ab[1..], pat), RemoveAll(b, pat));
    } else {
      assert a + b == b;
    }
  }

  /** Where no occurrence of `pat` starts at the front, the first character
    * is kept and the scan moves one character on. */
  lemma RemoveAllNoMatchHead(s: string, pat: string)
    requires pat != [] && s != [] && !(pat <= s)
    ensures RemoveAll(s, pat) == [s[0]] + RemoveAll(s[1..], pat)
  {
    if |s| >= |pat| {
      assert s[..|pat|] != pat;
    }
  }

  lemma ConsJoin(a: string, x: string, y: string, r: string)
    requires a != [] && x == [a[0]] + y && y == a[1..] + r
    ensures x == a + r
  {
  }

  lemma ConsTail(a: string, ab: string, b: string)
    requires a != [] && ab == a + b
    ensures ab != [] && ab[0] == a[0] && ab[1..] == a[1..] + b
  {
  }

  /** Where `pat` does not occur, `replace` leaves the string alone. */
  lemma {:induction false} RemoveAllAbsent(s: string, pat: string)
    requires !Contains(s, pat)
    ensures RemoveAll(s, pat) == s
    decreases |s|
  {
    if pat != [] && |s| >= |pat| {
      assert s[..|pat|] != pat;
      RemoveAllAbsent(s[1..], pat);
      assert [s[0]] + s[1..] == s;
    }
  }

  /** `s.replace('\\', '/')`: every backslash becomes a forward slash. */
  function ToSlashes(s: string): (r: string)
    ensures |r| == |s|
    ensures '\\' !in r
    ensures forall i :: 0 <= i < |s| ==> r[i] == if s[i] == '\\' then '/' else s[i]
  {
    if s == [] then [] else [if s[0] == '\\' then '/' else s[0]] + ToSlashes(s[1..])
  }

  lemma ToSlashesAppend(a: string, b: string)
    ensures ToSlashes(a + b) == ToSlashes(a) + ToSlashes(b)
  {
  }

  lemma ToSlashesNoBackslash(s: string)
    requires '\\' !in s
    ensures ToSlashes(s) == s
  {
  }

  // ---------------------------------------------------------------------
  // Lines

  predicate IsLineBreak(c: char) {
    c == '\n' || c == '\r'
  }

  /** No character of `s` ends a line for `splitlines`. */
  predicate NoLineBreak(s: string) {
    forall i :: 0 <= i < |s| ==> !IsLineBreak(s[i])
  }

  /** A concatenation breaks a line exactly when one of its parts does. */
  lemma NoLineBreakAppend(a: string, b: string)
    ensures NoLineBreak(a + b) <==> NoLineBreak(a) && NoLineBreak(b)
  {
    if NoLineBreak(a + b) {
      forall i | 0 <= i < |a|
        ensures !IsLineBreak(a[i])
      {
        assert (a + b)[i] == a[i];
      }
      forall i | 0 <= i < |b|
        ensures !IsLineBreak(b[i])
      {
        assert (a + b)[|a| + i] == b[i];
      }
    }
    if NoLineBreak(a) && NoLineBreak(b) {
      forall i | 0 <= i < |a + b|
        ensures !IsLineBreak((a + b)[i])
      {
        if i >= |a| {
          assert (a + b)[i] == b[i - |a|];
        }
      }
    }
  }

  /** Index of the first `\n` or `\r` of `s`, or `|s|`. */
  function LineEnd(s: string): (i: nat)
    ensures i <= |s|
    ensures i < |s| ==> IsLineBreak(s[i])
    ensures NoLineBreak(s[..i])
  {
    if s == [] then 0
    else if IsLineBreak(s[0]) then 0
    else
      var k := 1 + LineEnd(s[1..]);
      assert s[..k] == [s[0]] + s[1..][..k - 1];
      k
  }

  /** Python 2 `str.splitlines()`: split at `\n`, `\r` and `\r\n`, drop the
    * line breaks, and produce no empty last line after a final break. */
  function SplitLines(s: string): (lines: seq<string>)
    ensures forall k :: 0 <= k < |lines| ==> NoLineBreak(lines[k])
    decreases |s|
  {
    if s == [] then []
    else
      var i := LineEnd(s);
      if i == |s| then assert s[..i] == s; [s]
      else
        var next := if s[i] == '\r' && i + 1 < |s| && s[i + 1] == '\n' then i + 2 else i + 1;
        [s[..i]] + SplitLines(s[next..])
  }

  /** `''.join(l + '\n' for l in lines)`: each line written with a newline. */
  function Unlines(lines: seq<string>): (s: string)
    ensures |lines| > 0 ==> s != [] && s[|s| - 1] == '\n'
  {
    if lines == [] then [] else lines[0] + "\n" + Unlines(lines[1..])
  }

  lemma {:induction false} UnlinesAppend(lines: seq<string>, l: string)
    ensures Unlines(lines + [l]) == Unlines(lines) + l + "\n"
  {
    if lines == [] {
      assert lines + [l] == [l];
    } else {
      assert (lines + [l])[1..] == lines[1..] + [l];
      UnlinesAppend(lines[1..], l);
    }
  }

  lemma LineEndBeforeNewline(l: string, rest: string)
    requires NoLineBreak(l)
    ensures LineEnd(l + "\n" + rest) == |l|
  {
    if l != [] {
      assert (l + "\n" + rest)[1..] == l[1..] + "\n" + rest;
      LineEndBeforeNewline(l[1..], rest);
    }
  }

  /** `splitlines` undoes writing lines that hold no line break. */
  lemma {:induction false} SplitLinesOfUnlines(lines: seq<string>)
    requires forall k :: 0 <= k < |lines| ==> NoLineBreak(lines[k])
    ensures SplitLines(Unlines(lines)) == lines
  {
    if lines != [] {
      SplitLinesAfterLine(lines[0], Unlines(lines[1..]));
      SplitLinesOfUnlines(lines[1..]);
    }
  }

  /** A line without line breaks followed by `\n` is split off whole. */
  lemma SplitLinesAfterLine(l: string, rest: string)
    requires NoLineBreak(l)
    ensures SplitLines(l + "\n" + rest) == [l] + SplitLines(rest)
  {
    var s := l + "\n" + rest;
    LineEndBeforeNewline(l, rest);
    assert s[..|l|] == l;
    assert s[|l|] == '\n';
    assert s[|l| + 1..] == rest;
  }

  /** `file.readlines()` on text read on a POSIX host: split after every
    * `\n`, keeping it; a last line without `\n` is kept as it is. */
  function ReadLines(s: string): (lines: seq<string>)
    ensures forall k :: 0 <= k < |lines| ==> lines[k] != []
    decreases |s|
  {
    if s == [] then []
    else
      var i := IndexOf(s, '\n');
      if i == |s| then [s] else [s[..i + 1]] + ReadLines(s[i + 1..])
  }

  /** The lines of `s` put back together give `s`. */
  lemma {:induction false} ReadLinesConcat(s: string)
    ensures Concat(ReadLines(s)) == s
    decreases |s|
  {
    if s != [] {
      var i := IndexOf(s, '\n');
      if i < |s| {
        ReadLinesConcat(s[i + 1..]);
        assert s == s[..i + 1] + s[i + 1..];
      }
    }
  }

  function Concat(parts: seq<string>): string {
    if parts == [] then [] else parts[0] + Concat(parts[1..])
  }

  lemma {:induction false} ConcatAppend(a: seq<string>, b: seq<string>)
    ensures Concat(a + b) == Concat(a) + Concat(b)
  {
    if a == [] {
      assert a + b == b;
    } else {
      assert (a + b)[1..] == a[1..] + b;
      ConcatAppend(a[1..], b);
    }
  }

  /** Writing each line with its newline is writing the lines. */
  lemma {:induction false} ConcatWithNewlines(lines: seq<string>)
    ensures Concat(WithNewlines(lines)) == Unlines(lines)
  {
    if lines != [] {
      assert WithNewlines(lines)[1..] == WithNewlines(lines[1..]);
      ConcatWithNewlines(lines[1..]);
    }
  }

  /** Each line written with a newline reads back with that newline. */
  function WithNewlines(lines: seq<string>): (r: seq<string>)
    ensures |r| == |lines|
    ensures forall k :: 0 <= k < |lines| ==> r[k] == lines[k] + "\n"
  {
    seq(|lines|, k requires 0 <= k < |lines| => lines[k] + "\n")
  }

  /** `readlines` undoes writing lines that hold no `\n`. */
  lemma {:induction false} ReadLinesOfUnlines(lines: seq<string>)
    requires forall k :: 0 <= k < |lines| ==> '\n' !in lines[k]
    ensures ReadLines(Unlines(lines)) == WithNewlines(lines)
  {
    if lines != [] {
      var l, rest := lines[0], Unlines(lines[1..]);
      var s := l + "\n" + rest;
      assert s == l + ['\n'] + rest;
      IndexOfAppend(l, '\n', rest);
      assert s[..|l| + 1] == l + "\n";
      assert s[|l| + 1..] == rest;
      ReadLinesOfUnlines(lines[1..]);
    }
  }

  // ---------------------------------------------------------------------
  // split and rsplit

  /** `s.split(c)` for a one-character separator. */
  function Split(s: string, c: char): (parts: seq<string>)
    ensures |parts| >= 1
    ensures forall k :: 0 <= k < |parts| ==> c !in parts[k]
    ensures JoinWith(parts, c) == s
    decreases |s|
  {
    var i := IndexOf(s, c);
    if i == |s| then [s]
    else
      var rest := Split(s[i + 1..], c);
      var parts := [s[..i]] + rest;
      assert parts[1..] == rest;
      assert s == s[..i] + [c] + s[i + 1..];
      parts
  }

  /** `c.join(parts)`. */
  function JoinWith(parts: seq<string>, c: char): string {
    if parts == [] then []
    else if |parts| == 1 then parts[0]
    else parts[0] + [c] + JoinWith(parts[1..], c)
  }

  lemma SplitOfEmpty(c: char)
    ensures Split("", c) == [""]
  {
  }

  lemma SplitAbsent(s: string, c: char)
    requires c !in s
    ensures Split(s, c) == [s]
  {
    IndexOfAbsent(s, c);
  }

  /** The characters `rsplit()` treats as whitespace in a Python 2 `str`. */
  predicate IsSpace(c: char) {
    c == ' ' || c == '\t' || c == '\n' || c == '\r' || c == '\U{0b}' || c == '\U{0c}'
  }

  /** The run of non-whitespace characters at the start of `s`. */
  function Token(s: string): (t: string)
    ensures t <= s
    ensures forall k :: 0 <= k < |t| ==> !IsSpace(t[k])
    ensures |t| < |s| ==> IsSpace(s[|t|])
  {
    if s == [] || IsSpace(s[0]) then []
    else
      var t := [s[0]] + Token(s[1..]);
      assert t[1..] == Token(s[1..]);
      t
  }

  /** `s.rsplit()[0]`: the first whitespace-separated word of `s`;
    * `None` stands for the `IndexError` raised when `s` is all whitespace. */
  function FirstWord(s: string): (w: Option<string>)
    ensures w.Some? ==> w.value != [] && forall k :: 0 <= k < |w.value| ==> !IsSpace(w.value[k])
    ensures w.None? <==> forall k :: 0 <= k < |s| ==> IsSpace(s[k])
    ensures w.Some? ==> w.value == Token(s[LeadingSpaces(s)..])
  {
    if s == [] then None
    else if IsSpace(s[0]) then
      var w := FirstWord(s[1..]);
      assert forall k :: 1 <= k < |s| ==> s[k] == s[1..][k - 1];
      assert s[LeadingSpaces(s)..] == s[1..][LeadingSpaces(s[1..])..];
      w
    else
      assert s[0..] == s;
      Some(Token(s))
  }

  /** How many whitespace characters `s` starts with. */
  function LeadingSpaces(s: string): (i: nat)
    ensures i <= |s|
    ensures forall k :: 0 <= k < i ==> IsSpace(s[k])
    ensures i < |s| ==> !IsSpace(s[i])
  {
    if s == [] || !IsSpace(s[0]) then 0
    else
      var i := 1 + LeadingSpaces(s[1..]);
      assert forall k :: 1 <= k < i ==> s[k] == s[1..][k - 1];
      i
  }

  // ---------------------------------------------------------------------
  // Ordering

  /** `a <= b` on Python byte strings: lexicographic, a prefix first. */
  predicate LessEq(a: string, b: string) {
    a == [] || (b != [] && (a[0] < b[0] || (a[0] == b[0] && LessEq(a[1..], b[1..]))))
  }

  lemma {:induction false} LessEqTotal(a: string, b: string)
    ensures LessEq(a, b) || LessEq(b, a)
  {
    if a != [] && b != [] && a[0] == b[0] {
      LessEqTotal(a[1..], b[1..]);
    }
  }

  lemma {:induction false} LessEqTrans(a: string, b: string, c: string)
    requires LessEq(a, b) && LessEq(b, c)
    ensures LessEq(a, c)
  {
    if a != [] && b != [] && c != [] && a[0] == b[0] == c[0] {
      LessEqTrans(a[1..], b[1..], c[1..]);
    }
  }

  /** A shared prefix does not change how two strings compare. */
  lemma {:induction false} LessEqCommonPrefix(p: string, a: string, b: string)
    ensures LessEq(p + a, p + b) == LessEq(a, b)
  {
    if p != [] {
      assert (p + a)[1..] == p[1..] + a;
      assert (p + b)[1..] == p[1..] + b;
      LessEqCommonPrefix(p[1..], a, b);
    } else {
      assert p + a == a && p + b == b;
    }
  }
}
