/** The string primitives the scraper relies on, with Python's meaning:
    the `in` operator on strings, `str.count` and `str.join`. `Split` on one
    character is not used by the program; it is the inverse that pins down
    what `Join` produces. */
module Text {

  /** `p` occurs in `s` starting at index `i`. */
  predicate OccursAt(s: string, p: string, i: int)
  {
    0 <= i && i + |p| <= |s| && s[i..i + |p|] == p
  }

  /** Python's `p in s`: a case-sensitive substring test. The empty string
      occurs in every string. */
  predicate Contains(s: string, p: string)
  {
    exists i | 0 <= i <= |s| - |p| :: OccursAt(s, p, i)
  }

  /** Python's `s.count(p)`: the occurrences of `p` found by scanning `s` left
      to right and resuming after each match, so overlapping occurrences
      are not counted. An empty `p` matches at each of the |s| + 1 positions. */
  function Count(s: string, p: string): nat
    decreases |s|
  {
    if |p| == 0 then |s| + 1
    else if |s| < |p| then 0
    else if s[..|p|] == p then 1 + Count(s[|p|..], p)
    else Count(s[1..], p)
  }

  /** A non-empty pattern cannot be counted more often than it fits into the
      string, since counted occurrences do not overlap. */
  lemma {:induction false} CountBound(s: string, p: string)
    requires |p| > 0
    ensures Count(s, p) * |p| <= |s|
    decreases |s|
  {
    if |s| >= |p| {
      if s[..|p|] == p {
        var rest := s[|p|..];
        CountBound(rest, p);
        var c := Count(rest, p);
        assert Count(s, p) == 1 + c;
        MulSucc(c, |p|);
      } else {
        CountBound(s[1..], p);
      }
    }
  }

  /** Distributing one extra factor: (1 + c) * n == n + c * n. */
  lemma MulSucc(c: nat, n: nat)
    ensures (1 + c) * n == n + c * n
  {
  }

  /** The left-to-right scan by which `str.count` computes its result:
      compare at position `i`, and on a match count it and jump past it. */
  method CountScan(s: string, p: string) returns (n: nat)
    ensures n == Count(s, p)
  {
    if |p| == 0 {
      return |s| + 1;
    }
    n := 0;
    var i := 0;
    while i + |p| <= |s|
      invariant 0 <= i <= |s|
      invariant n + Count(s[i..], p) == Count(s, p)
      decreases |s| - i
    {
      assert s[i..][..|p|] == s[i..i + |p|];
      if s[i..i + |p|] == p {
        assert s[i..][|p|..] == s[i + |p|..];
        n := n + 1;
        i := i + |p|;
      } else {
        assert s[i..][1..] == s[i + 1..];
        i := i + 1;
      }
    }
  }

  /** An occurrence of `p` in `s` other than at the front is an occurrence
      in `s[1..]`, and conversely. */
  lemma ContainsStep(s: string, p: string)
    requires |s| > 0
    ensures Contains(s, p) <==> OccursAt(s, p, 0) || Contains(s[1..], p)
  {
    if Contains(s, p) && !OccursAt(s, p, 0) {
      var i :| 0 <= i <= |s| - |p| && OccursAt(s, p, i);
      assert s[1..][i - 1..i - 1 + |p|] == s[i..i + |p|];
      assert OccursAt(s[1..], p, i - 1);
    }
    if Contains(s[1..], p) {
      var i :| 0 <= i <= |s[1..]| - |p| && OccursAt(s[1..], p, i);
      assert s[1..][i..i + |p|] == s[i + 1..i + 1 + |p|];
      assert OccursAt(s, p, i + 1);
    }
  }

  /** A match at the front is counted and skipped. */
  lemma CountLeadingMatch(p: string, rest: string)
    requires |p| > 0
    ensures Count(p + rest, p) == 1 + Count(rest, p)
  {
    assert (p + rest)[..|p|] == p;
    assert (p + rest)[|p|..] == rest;
  }

  /** A leading character that cannot start a match is skipped. */
  lemma CountSkipChar(c: char, rest: string, p: string)
    requires |p| > 0 && c != p[0]
    ensures Count([c] + rest, p) == Count(rest, p)
  {
    assert ([c] + rest)[1..] == rest;
    if |[c] + rest| >= |p| {
      assert ([c] + rest)[..|p|][0] == c;
    }
  }

  /** A string lacking some character of `p` cannot contain `p`. */
  lemma NotContainsByChar(s: string, p: string, j: int)
    requires 0 <= j < |p| && p[j] !in s
    ensures !Contains(s, p)
  {
    forall i | 0 <= i <= |s| - |p|
      ensures !OccursAt(s, p, i)
    {
      assert s[i + j] in s;
    }
  }

  /** For a non-empty pattern, `s.count(p) > 0` exactly when `p in s`. */
  lemma {:induction false} CountPositiveIffContains(s: string, p: string)
    requires |p| > 0
    ensures Count(s, p) > 0 <==> Contains(s, p)
    decreases |s|
  {
    if |s| < |p| {
      assert !Contains(s, p);
    } else if s[..|p|] == p {
      assert OccursAt(s, p, 0);
    } else {
      ContainsStep(s, p);
      assert !OccursAt(s, p, 0);
      CountPositiveIffContains(s[1..], p);
    }
  }

  /** An occurrence survives being embedded in a longer string. */
  lemma ContainsConcat(a: string, b: string, p: string)
    ensures Contains(a, p) ==> Contains(a + b, p) && Contains(b + a, p)
  {
    if Contains(a, p) {
      var i :| 0 <= i <= |a| - |p| && OccursAt(a, p, i);
      assert (a + b)[i..i + |p|] == a[i..i + |p|];
      assert OccursAt(a + b, p, i);
      assert (b + a)[|b| + i..|b| + i + |p|] == a[i..i + |p|];
      assert OccursAt(b + a, p, |b| + i);
    }
  }

  /** Python's `sep.join(parts)`: the parts in order, with `sep` between each
      neighbouring pair and nowhere else. */
  function Join(parts: seq<string>, sep: string): (r: string)
    ensures |parts| == 0 ==> r == ""
    ensures |parts| > 0 ==> |r| == TotalLength(parts) + (|parts| - 1) * |sep|
    decreases |parts|
  {
    if |parts| == 0 then ""
    else if |parts| == 1 then parts[0]
    else parts[0] + sep + Join(parts[1..], sep)
  }

  /** The summed length of a sequence of strings. */
  function TotalLength(parts: seq<string>): nat
    decreases |parts|
  {
    if |parts| == 0 then 0 else |parts[0]| + TotalLength(parts[1..])
  }

  /** Every part of a join occurs in the joined string, so whatever occurs in
      a part occurs in the join. */
  lemma {:induction false} JoinContainsPart(parts: seq<string>, sep: string, k: int, p: string)
    requires 0 <= k < |parts|
    requires Contains(parts[k], p)
    ensures Contains(Join(parts, sep), p)
    decreases |parts|
  {
    if |parts| == 1 {
    } else if k == 0 {
      ContainsConcat(parts[0], sep + Join(parts[1..], sep), p);
      assert parts[0] + sep + Join(parts[1..], sep) == parts[0] + (sep + Join(parts[1..], sep));
    } else {
      JoinContainsPart(parts[1..], sep, k - 1, p);
      ContainsConcat(Join(parts[1..], sep), parts[0] + sep, p);
    }
  }

  /** With a non-empty separator, a join is empty exactly when there are no
      parts or a single empty one. */
  lemma {:induction false} JoinEmptyIff(parts: seq<string>, sep: string)
    requires |sep| > 0
    ensures Join(parts, sep) == "" <==> |parts| == 0 || (|parts| == 1 && parts[0] == "")
    decreases |parts|
  {
    if |parts| > 1 {
      assert |Join(parts, sep)| >= |sep|;
    }
  }

  /** Python's `s.split(c)` for a one-character separator: the maximal runs
      between separators, including empty ones; never an empty list. */
  function Split(s: string, c: char): (r: seq<string>)
    ensures |r| > 0
    ensures forall i | 0 <= i < |r| :: c !in r[i]
    decreases |s|
  {
    if |s| == 0 then [""]
    else
      var rest := Split(s[1..], c);
      if s[0] == c then [""] + rest
      else [[s[0]] + rest[0]] + rest[1..]
  }

  /** Splitting a string that holds no separator gives it back whole. */
  lemma {:induction false} SplitNoSeparator(s: string, c: char)
    requires c !in s
    ensures Split(s, c) == [s]
    decreases |s|
  {
    if |s| > 0 {
      assert c !in s[1..];
      SplitNoSeparator(s[1..], c);
      assert [s[0]] + s[1..] == s;
    }
  }

  /** Splitting `x + c + y` where `x` has no separator peels off `x`. */
  lemma {:induction false} SplitFirst(x: string, y: string, c: char)
    requires c !in x
    ensures Split(x + [c] + y, c) == [x] + Split(y, c)
    decreases |x|
  {
    if |x| == 0 {
      assert x + [c] + y == [c] + y;
      assert ([c] + y)[1..] == y;
    } else {
      assert (x + [c] + y)[1..] == x[1..] + [c] + y;
      assert c !in x[1..];
      SplitFirst(x[1..], y, c);
      assert [x[0]] + x[1..] == x;
    }
  }

  /** Joining with one character and splitting on it again gives back the
      parts, as long as no part contains that character. */
  lemma {:induction false} SplitJoin(parts: seq<string>, c: char)
    requires |parts| > 0
    requires forall i | 0 <= i < |parts| :: c !in parts[i]
    ensures Split(Join(parts, [c]), c) == parts
    decreases |parts|
  {
    if |parts| == 1 {
      SplitNoSeparator(parts[0], c);
    } else {
      SplitJoin(parts[1..], c);
      SplitFirst(parts[0], Join(parts[1..], [c]), c);
      assert [parts[0]] + parts[1..] == parts;
    }
  }

  /** Conversely, joining the pieces of a split with the separator restores
      the original string. */
  lemma {:induction false} JoinSplit(s: string, c: char)
    ensures Join(Split(s, c), [c]) == s
    decreases |s|
  {
    if |s| > 0 {
      JoinSplit(s[1..], c);
      var rest := Split(s[1..], c);
      if s[0] == c {
        assert ([""] + rest)[1..] == rest;
        assert [s[0]] == [c];
        assert s == [c] + s[1..];
      } else {
        var r := [[s[0]] + rest[0]] + rest[1..];
        assert r[1..] == rest[1..];
        if |rest| == 1 {
          assert s == [s[0]] + s[1..];
        } else {
          assert rest == [rest[0]] + rest[1..];
          assert Join(rest, [c]) == rest[0] + [c] + Join(rest[1..], [c]);
          assert s == [s[0]] + s[1..];
        }
      }
    }
  }
}
