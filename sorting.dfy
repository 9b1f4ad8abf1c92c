/**
 * `sorted(lines, key=lambda x: x[34:])`: a stable sort of manifest lines by
 * the text from column 34 on. Python's sort is stable, and a stable sort by
 * a key is unique (`StableSortIsUnique`), so the insertion sort below gives
 * exactly the list Python's sort gives.
 */
module Sorting {
  import opened PyStr

  /** Where the path starts in a manifest line: 32 digest characters and
    * two spaces come before it. */
  const PathColumn: nat := 34

  /** The sort key: `x[34:]`. */
  function PathKey(line: string): string {
    Drop(line, PathColumn)
  }

  predicate SortedByPath(s: seq<string>) {
    forall i, j :: 0 <= i < j < |s| ==> LessEq(PathKey(s[i]), PathKey(s[j]))
  }

  /** Puts `x` in front of the first line whose key is not smaller. */
  function Insert(x: string, s: seq<string>): seq<string> {
    if s == [] then [x]
    else if LessEq(PathKey(x), PathKey(s[0])) then [x] + s
    else [s[0]] + Insert(x, s[1..])
  }

  function SortByPath(s: seq<string>): seq<string> {
    if s == [] then [] else Insert(s[0], SortByPath(s[1..]))
  }

  /** The lines of `s` whose key is `k`, in the order of `s`. */
  function WithKey(s: seq<string>, k: string): (r: seq<string>)
    ensures |r| <= |s|
  {
    if s == [] then []
    else (if PathKey(s[0]) == k then [s[0]] else []) + WithKey(s[1..], k)
  }

  // ---------------------------------------------------------------------
  // Sorted and a permutation

  lemma {:induction false} InsertPermutes(x: string, s: seq<string>)
    ensures multiset(Insert(x, s)) == multiset([x]) + multiset(s)
  {
    if s != [] && !LessEq(PathKey(x), PathKey(s[0])) {
      InsertPermutes(x, s[1..]);
      assert s == [s[0]] + s[1..];
    }
  }

  lemma {:induction false} InsertSorted(x: string, s: seq<string>)
    requires SortedByPath(s)
    ensures SortedByPath(Insert(x, s))
  {
    if s == [] {
    } else if LessEq(PathKey(x), PathKey(s[0])) {
      forall j | 0 <= j < |s|
        ensures LessEq(PathKey(x), PathKey(s[j]))
      {
        if j > 0 {
          LessEqTrans(PathKey(x), PathKey(s[0]), PathKey(s[j]));
        }
      }
      SortedCons(x, s);
    } else {
      var tail := s[1..];
      InsertSorted(x, tail);
      LessEqTotal(PathKey(x), PathKey(s[0]));
      forall j | 0 <= j < |tail|
        ensures LessEq(PathKey(s[0]), PathKey(tail[j]))
      {
        assert tail[j] == s[j + 1];
      }
      InsertLowerBound(PathKey(s[0]), x, tail);
      SortedCons(s[0], Insert(x, tail));
    }
  }

  /** A line in front of sorted lines whose keys are all at least its own. */
  lemma SortedCons(a: string, t: seq<string>)
    requires SortedByPath(t)
    requires forall j :: 0 <= j < |t| ==> LessEq(PathKey(a), PathKey(t[j]))
    ensures SortedByPath([a] + t)
  {
    forall i, j | 0 <= i < j < |[a] + t|
      ensures LessEq(PathKey(([a] + t)[i]), PathKey(([a] + t)[j]))
    {
      var lo := if i == 0 then a else t[i - 1];
      assert LessEq(PathKey(lo), PathKey(t[j - 1]));
      ConsIndex(a, t, i, j);
    }
  }

  lemma ConsIndex(a: string, t: seq<string>, i: nat, j: nat)
    requires i < j <= |t|
    ensures ([a] + t)[j] == t[j - 1]
    ensures ([a] + t)[i] == if i == 0 then a else t[i - 1]
  {
  }

  /** Inserting keeps a lower bound on the keys. */
  lemma {:induction false} InsertLowerBound(lo: string, x: string, s: seq<string>)
    requires LessEq(lo, PathKey(x))
    requires forall j :: 0 <= j < |s| ==> LessEq(lo, PathKey(s[j]))
    ensures forall j :: 0 <= j < |Insert(x, s)| ==> LessEq(lo, PathKey(Insert(x, s)[j]))
  {
    if s != [] && !LessEq(PathKey(x), PathKey(s[0])) {
      var tail := s[1..];
      forall j | 0 <= j < |tail|
        ensures LessEq(lo, PathKey(tail[j]))
      {
        assert tail[j] == s[j + 1];
      }
      InsertLowerBound(lo, x, tail);
      var t := Insert(x, tail);
      var r := [s[0]] + t;
      assert Insert(x, s) == r;
      forall j | 0 <= j < |r|
        ensures LessEq(lo, PathKey(r[j]))
      {
        if j > 0 {
          assert r[j] == t[j - 1];
        }
      }
    }
  }

  /** The written manifest is sorted by path and holds exactly the lines
    * it was given, each as often as it was given. */
  lemma {:induction false} SortByPathCorrect(s: seq<string>)
    ensures SortedByPath(SortByPath(s))
    ensures multiset(SortByPath(s)) == multiset(s)
  {
    SortByPathSorted(s);
    SortByPathPermutes(s);
  }

  lemma {:induction false} SortByPathSorted(s: seq<string>)
    ensures SortedByPath(SortByPath(s))
  {
    if s != [] {
      SortByPathSorted(s[1..]);
      InsertSorted(s[0], SortByPath(s[1..]));
    }
  }

  lemma {:induction false} SortByPathPermutes(s: seq<string>)
    ensures multiset(SortByPath(s)) == multiset(s)
  {
    if s != [] {
      SortByPathPermutes(s[1..]);
      InsertPermutes(s[0], SortByPath(s[1..]));
      assert s == [s[0]] + s[1..];
    }
  }

  // ---------------------------------------------------------------------
  // Stability

  lemma WithKeyCons(a: string, s: seq<string>, k: string)
    ensures WithKey([a] + s, k) == (if PathKey(a) == k then [a] else []) + WithKey(s, k)
  {
    assert ([a] + s)[1..] == s;
  }

  lemma {:induction false} WithKeyInsert(x: string, s: seq<string>, k: string)
    ensures WithKey(Insert(x, s), k) == (if PathKey(x) == k then [x] else []) + WithKey(s, k)
  {
    if s == [] {
      WithKeyCons(x, [], k);
      assert [x] + [] == [x];
    } else if LessEq(PathKey(x), PathKey(s[0])) {
      WithKeyCons(x, s, k);
    } else {
      var t := Insert(x, s[1..]);
      assert Insert(x, s) == [s[0]] + t;
      // s[0]'s key is strictly smaller than x's, so the two keys differ
      LessEqRefl(PathKey(x));
      WithKeyInsert(x, s[1..], k);
      WithKeyCons(s[0], t, k);
      WithKeyCons(s[0], s[1..], k);
      assert [s[0]] + s[1..] == s;
      SwapSingles(if PathKey(s[0]) == k then [s[0]] else [], if PathKey(x) == k then [x] else [], WithKey(s[1..], k));
    }
  }

  lemma SwapSingles<T>(p: seq<T>, q: seq<T>, w: seq<T>)
    requires p == [] || q == []
    ensures p + (q + w) == q + (p + w)
  {
    if p == [] {
      assert p + (q + w) == q + w;
    } else {
      assert q + (p + w) == p + w;
    }
  }

  /** Lines with the same path keep the order they were generated in. */
  lemma {:induction false} SortByPathStable(s: seq<string>, k: string)
    ensures WithKey(SortByPath(s), k) == WithKey(s, k)
  {
    if s != [] {
      SortByPathStable(s[1..], k);
      WithKeyInsert(s[0], SortByPath(s[1..]), k);
    }
  }

  lemma {:induction false} LessEqAntisym(a: string, b: string)
    requires LessEq(a, b) && LessEq(b, a)
    ensures a == b
  {
    if a != [] && b != [] {
      LessEqAntisym(a[1..], b[1..]);
      assert a == [a[0]] + a[1..] && b == [b[0]] + b[1..];
    }
  }

  lemma {:induction false} WithKeyHead(s: seq<string>)
    requires s != []
    ensures WithKey(s, PathKey(s[0])) != [] && WithKey(s, PathKey(s[0]))[0] == s[0]
  {
  }

  /** In a sorted list every key present is at least the first line's key. */
  lemma {:induction false} SortedHeadIsLeast(s: seq<string>, k: string)
    requires SortedByPath(s) && s != []
    requires WithKey(s, k) != []
    ensures LessEq(PathKey(s[0]), k)
  {
    if PathKey(s[0]) != k {
      var t := s[1..];
      assert WithKey(t, k) != [];
      var i := WithKeyMember(t, k);
      assert s[i + 1] == t[i];
    } else {
      LessEqRefl(k);
    }
  }

  lemma {:induction false} LessEqRefl(a: string)
    ensures LessEq(a, a)
  {
    if a != [] {
      LessEqRefl(a[1..]);
    }
  }

  lemma {:induction false} WithKeyMember(s: seq<string>, k: string) returns (i: nat)
    requires WithKey(s, k) != []
    ensures i < |s| && PathKey(s[i]) == k
  {
    if PathKey(s[0]) == k {
      i := 0;
    } else {
      var j := WithKeyMember(s[1..], k);
      i := j + 1;
    }
  }

  /** Two lists sorted by path whose lines of each path come in the same
    * order are the same list: a stable sort has only one possible result. */
  lemma {:induction false} StableSortIsUnique(r: seq<string>, q: seq<string>)
    requires SortedByPath(r) && SortedByPath(q)
    requires forall k :: WithKey(r, k) == WithKey(q, k)
    ensures r == q
    decreases |r|
  {
    if r == [] || q == [] {
      if r != [] {
        WithKeyHead(r);
        assert false;
      } else if q != [] {
        WithKeyHead(q);
        assert false;
      }
    } else {
      var kr, kq := PathKey(r[0]), PathKey(q[0]);
      WithKeyHead(r);
      WithKeyHead(q);
      SortedHeadIsLeast(q, kr);
      SortedHeadIsLeast(r, kq);
      LessEqAntisym(kr, kq);
      assert r[0] == WithKey(r, kr)[0] == WithKey(q, kr)[0] == q[0];
      forall k
        ensures WithKey(r[1..], k) == WithKey(q[1..], k)
      {
        var h := if kr == k then [r[0]] else [];
        assert WithKey(r, k) == h + WithKey(r[1..], k);
        assert WithKey(q, k) == h + WithKey(q[1..], k);
        assert (h + WithKey(r[1..], k))[|h|..] == WithKey(r[1..], k);
        assert (h + WithKey(q[1..], k))[|h|..] == WithKey(q[1..], k);
      }
      StableSortIsUnique(r[1..], q[1..]);
    }
  }

  /** Whatever stable sort produced `r`, it is the list `SortByPath` gives. */
  lemma StableSortAgrees(s: seq<string>, r: seq<string>)
    requires SortedByPath(r)
    requires forall k :: WithKey(r, k) == WithKey(s, k)
    ensures r == SortByPath(s)
  {
    SortByPathCorrect(s);
    forall k
      ensures WithKey(r, k) == WithKey(SortByPath(s), k)
    {
      SortByPathStable(s, k);
    }
    StableSortIsUnique(r, SortByPath(s));
  }

  // ---------------------------------------------------------------------
  // Moving every path under a common prefix

  /** The line with `pre` put in front of its path: the first 34
    * characters, then `pre`, then the rest. */
  function Reprefix(line: string, pre: string): string {
    Take(line, PathColumn) + pre + Drop(line, PathColumn)
  }

  function ReprefixAll(lines: seq<string>, pre: string): (r: seq<string>)
    ensures |r| == |lines|
  {
    seq(|lines|, k requires 0 <= k < |lines| => Reprefix(lines[k], pre))
  }

  /** Every line reaches the path column. */
  predicate LongLines(s: seq<string>) {
    forall k :: 0 <= k < |s| ==> |s[k]| >= PathColumn
  }

  lemma PathKeyReprefix(line: string, pre: string)
    requires |line| >= PathColumn
    ensures PathKey(Reprefix(line, pre)) == pre + PathKey(line)
  {
    var r := Reprefix(line, pre);
    assert r == Take(line, PathColumn) + (pre + Drop(line, PathColumn));
    assert r[PathColumn..] == pre + Drop(line, PathColumn);
  }

  /** An empty prefix changes nothing. */
  lemma ReprefixEmpty(lines: seq<string>)
    ensures ReprefixAll(lines, "") == lines
  {
    forall k | 0 <= k < |lines|
      ensures Reprefix(lines[k], "") == lines[k]
    {
      assert Take(lines[k], PathColumn) + "" == Take(lines[k], PathColumn);
    }
  }

  lemma ReprefixAllAppend(a: seq<string>, b: seq<string>, pre: string)
    ensures ReprefixAll(a + b, pre) == ReprefixAll(a, pre) + ReprefixAll(b, pre)
  {
  }

  lemma ReprefixAllCons(x: string, s: seq<string>, pre: string)
    ensures ReprefixAll([x] + s, pre) == [Reprefix(x, pre)] + ReprefixAll(s, pre)
  {
  }

  /** The prefix is compared first, so comparing prefixed paths is
    * comparing the paths. */
  lemma ReprefixKeepsOrder(x: string, y: string, pre: string)
    requires |x| >= PathColumn && |y| >= PathColumn
    ensures LessEq(PathKey(Reprefix(x, pre)), PathKey(Reprefix(y, pre))) == LessEq(PathKey(x), PathKey(y))
  {
    PathKeyReprefix(x, pre);
    PathKeyReprefix(y, pre);
    LessEqCommonPrefix(pre, PathKey(x), PathKey(y));
  }

  lemma {:induction false} InsertReprefix(x: string, s: seq<string>, pre: string)
    requires |x| >= PathColumn && LongLines(s)
    ensures Insert(Reprefix(x, pre), ReprefixAll(s, pre)) == ReprefixAll(Insert(x, s), pre)
  {
    if s == [] {
      ReprefixAllCons(x, [], pre);
    } else {
      var rx, rs := Reprefix(x, pre), ReprefixAll(s, pre);
      ReprefixKeepsOrder(x, s[0], pre);
      ReprefixAllCons(s[0], s[1..], pre);
      assert s == [s[0]] + s[1..];
      if LessEq(PathKey(x), PathKey(s[0])) {
        ReprefixAllCons(x, s, pre);
      } else {
        InsertReprefix(x, s[1..], pre);
        ReprefixAllCons(s[0], Insert(x, s[1..]), pre);
      }
    }
  }

  /** Putting the same prefix in front of every path does not change the
    * order the sort gives: the prefix is compared first and is equal. */
  lemma {:induction false} SortByPathReprefix(s: seq<string>, pre: string)
    requires LongLines(s)
    ensures SortByPath(ReprefixAll(s, pre)) == ReprefixAll(SortByPath(s), pre)
  {
    if s != [] {
      var rs := ReprefixAll(s, pre);
      assert rs[1..] == ReprefixAll(s[1..], pre);
      SortByPathReprefix(s[1..], pre);
      var sorted := SortByPath(s[1..]);
      SortByPathCorrect(s[1..]);
      forall k | 0 <= k < |sorted|
        ensures |sorted[k]| >= PathColumn
      {
        assert sorted[k] in multiset(s[1..]);
        var m :| 0 <= m < |s[1..]| && s[1..][m] == sorted[k];
      }
      InsertReprefix(s[0], sorted, pre);
    }
  }
}
