/** The three string operations the file loader relies on, with Python's semantics:
    substring test (`p in s`), replace-all with the empty string (`s.replace(p, '')`)
    and a single split at the last separator (`s.rsplit(sep, 1)`). */
module Text {
  import opened Wrappers
  import opened Seqs

  /** `p` occurs in `s` at index `i`. */
  predicate OccursAt(s: string, p: string, i: int)
  {
    0 <= i && i + |p| <= |s| && s[i..i + |p|] == p
  }

  predicate StartsWith(s: string, p: string)
  {
    |p| <= |s| && s[..|p|] == p
  }

  /** Python's `p in s`: `p` occurs somewhere in `s`. */
  predicate Contains(s: string, p: string)
  {
    exists i :: 0 <= i <= |s| - |p| && OccursAt(s, p, i)
  }

  /** The left-to-right scan: `p` is in `s` when `s` starts with it or it is in the rest. */
  lemma ContainsStep(s: string, p: string)
    ensures Contains(s, p) <==> StartsWith(s, p) || (|s| > 0 && Contains(s[1..], p))
  {
    if StartsWith(s, p) {
      assert OccursAt(s, p, 0);
    } else if |s| > 0 {
      if Contains(s[1..], p) {
        var j :| 0 <= j <= |s[1..]| - |p| && OccursAt(s[1..], p, j);
        assert s[j + 1..j + 1 + |p|] == s[1..][j..j + |p|];
        assert OccursAt(s, p, j + 1);
      }
      if Contains(s, p) {
        var i :| 0 <= i <= |s| - |p| && OccursAt(s, p, i);
        assert i != 0;
        assert s[1..][i - 1..i - 1 + |p|] == s[i..i + |p|];
        assert OccursAt(s[1..], p, i - 1);
      }
    }
  }

  /** If some character of `p` never appears in `s`, then `p` does not occur in `s`. */
  lemma MissingCharNotContained(s: string, p: string, k: int)
    requires 0 <= k < |p| && p[k] !in s
    ensures !Contains(s, p)
  {
    forall i | 0 <= i <= |s| - |p| ensures !OccursAt(s, p, i) {
      assert s[i..i + |p|][k] == s[i + k];
    }
  }

  /** Whoever contains `p + q` contains `p`. */
  lemma ContainsPrefixOf(s: string, p: string, q: string)
    requires Contains(s, p + q)
    ensures Contains(s, p)
  {
    var i :| 0 <= i <= |s| - |p + q| && OccursAt(s, p + q, i);
    assert s[i..i + |p|] == s[i..i + |p + q|][..|p|];
    assert OccursAt(s, p, i);
  }

  /** Python's `s.replace(p, '')` for a non-empty `p`: scanning from the left, every
      occurrence of `p` that does not overlap an earlier removed one is deleted. */
  function RemoveAll(s: string, p: string): (r: string)
    requires |p| > 0
    ensures |r| <= |s|
    decreases |s|
  {
    if |s| == 0 then ""
    else if StartsWith(s, p) then RemoveAll(s[|p|..], p)
    else [s[0]] + RemoveAll(s[1..], p)
  }

  /** Python's `s.count(p)` for a non-empty `p`: the non-overlapping occurrences found
      by the same left-to-right scan. */
  function CountOccurrences(s: string, p: string): nat
    requires |p| > 0
    decreases |s|
  {
    if |s| == 0 then 0
    else if StartsWith(s, p) then 1 + CountOccurrences(s[|p|..], p)
    else CountOccurrences(s[1..], p)
  }

  /** Each removal deletes exactly `|p|` characters. */
  lemma {:induction false} RemoveAllLength(s: string, p: string)
    requires |p| > 0
    ensures |RemoveAll(s, p)| + |p| * CountOccurrences(s, p) == |s|
    decreases |s|
  {
    if |s| > 0 {
      if StartsWith(s, p) {
        var t := s[|p|..];
        RemoveAllLength(t, p);
        assert RemoveAll(s, p) == RemoveAll(t, p);
        assert CountOccurrences(s, p) == 1 + CountOccurrences(t, p);
        MulSucc(|p|, CountOccurrences(t, p));
      } else {
        RemoveAllLength(s[1..], p);
        assert |RemoveAll(s, p)| == 1 + |RemoveAll(s[1..], p)|;
        assert CountOccurrences(s, p) == CountOccurrences(s[1..], p);
      }
    }
  }

  lemma MulSucc(a: nat, n: nat)
    ensures a * (1 + n) == a + a * n
  {
  }

  /** The scan finds an occurrence exactly when there is one. */
  lemma {:induction false} CountPositiveIffContains(s: string, p: string)
    requires |p| > 0
    ensures CountOccurrences(s, p) > 0 <==> Contains(s, p)
    decreases |s|
  {
    ContainsStep(s, p);
    if |s| > 0 && !StartsWith(s, p) {
      CountPositiveIffContains(s[1..], p);
    }
  }

  /** Without an occurrence of `p`, replacing leaves the string alone. */
  lemma {:induction false} RemoveAllAbsent(s: string, p: string)
    requires |p| > 0 && !Contains(s, p)
    ensures RemoveAll(s, p) == s
    decreases |s|
  {
    ContainsStep(s, p);
    if |s| > 0 {
      RemoveAllAbsent(s[1..], p);
      assert [s[0]] + s[1..] == s;
    }
  }

  /** `s.replace(p, '') == s` exactly when `p` does not occur in `s`. */
  lemma RemoveAllIdentityIff(s: string, p: string)
    requires |p| > 0
    ensures RemoveAll(s, p) == s <==> !Contains(s, p)
  {
    if Contains(s, p) {
      CountPositiveIffContains(s, p);
      RemoveAllLength(s, p);
    } else {
      RemoveAllAbsent(s, p);
    }
  }

  /** Removal only deletes characters: the result keeps the order of what remains. */
  lemma {:induction false} RemoveAllSubseq(s: string, p: string)
    requires |p| > 0
    ensures Subseq(RemoveAll(s, p), s)
    decreases |s|
  {
    if |s| > 0 {
      if StartsWith(s, p) {
        RemoveAllSubseq(s[|p|..], p);
        SubseqDropFront(RemoveAll(s, p), s, |p|);
      } else {
        RemoveAllSubseq(s[1..], p);
        assert ([s[0]] + RemoveAll(s[1..], p))[1..] == RemoveAll(s[1..], p);
      }
    }
  }

  /** A leading occurrence of `p` is removed and the scan restarts right after it. */
  lemma RemoveAllLeading(p: string, t: string)
    requires |p| > 0
    ensures RemoveAll(p + t, p) == RemoveAll(t, p)
  {
    assert (p + t)[..|p|] == p;
    assert (p + t)[|p|..] == t;
  }

  /** Characters before the first removal are kept as they are. */
  lemma {:induction false} RemoveAllKeepsFront(u: string, t: string, p: string)
    requires |p| > 0
    requires forall i :: 0 <= i < |u| ==> !StartsWith((u + t)[i..], p)
    ensures RemoveAll(u + t, p) == u + RemoveAll(t, p)
    decreases |u|
  {
    if |u| == 0 {
      assert u + t == t;
    } else {
      assert (u + t)[0..] == u + t;
      assert (u + t)[1..] == u[1..] + t;
      forall i | 0 <= i < |u[1..]| ensures !StartsWith((u[1..] + t)[i..], p) {
        assert (u[1..] + t)[i..] == (u + t)[i + 1..];
      }
      RemoveAllKeepsFront(u[1..], t, p);
      assert u == [u[0]] + u[1..];
    }
  }

  /** With `p` heading the text and once more in the middle, and the other parts free of
      its first character, both occurrences are deleted. */
  lemma RemoveAllTwoOccurrences(p: string, a: string, b: string)
    requires |p| > 0 && p[0] !in a && p[0] !in b
    ensures RemoveAll(p + a + p + b, p) == a + b
  {
    assert p + a + p + b == p + (a + (p + b));
    RemoveAllLeading(p, a + (p + b));
    forall i | 0 <= i < |a| ensures !StartsWith((a + (p + b))[i..], p) {
      assert (a + (p + b))[i..][0] == a[i];
    }
    RemoveAllKeepsFront(a, p + b, p);
    RemoveAllLeading(p, b);
    MissingCharNotContained(b, p, 0);
    RemoveAllAbsent(b, p);
  }

  /** Index of the last `c` in `s`, if any. */
  function LastIndexOf(s: string, c: char): (r: Option<nat>)
    ensures r.None? <==> c !in s
    ensures r.Some? ==> r.value < |s| && s[r.value] == c && c !in s[r.value + 1..]
    decreases |s|
  {
    if |s| == 0 then None
    else if s[|s| - 1] == c then Some(|s| - 1)
    else
      var r := LastIndexOf(s[..|s| - 1], c);
      assert s == s[..|s| - 1] + [s[|s| - 1]];
      if r.Some? then
        assert s[r.value + 1..] == s[..|s| - 1][r.value + 1..] + [s[|s| - 1]];
        r
      else r
  }

  /** Python's `s.rsplit(sep, 1)`: one piece when `sep` does not occur, otherwise the
      text before the last `sep` and the text after it. */
  function RSplitOnce(s: string, sep: char): (r: seq<string>)
    ensures |r| == 1 <==> sep !in s
    ensures |r| == 1 ==> r[0] == s
    ensures |r| == 2 ==> r[0] + [sep] + r[1] == s && sep !in r[1]
    ensures |r| == 1 || |r| == 2
  {
    match LastIndexOf(s, sep)
    case None => [s]
    case Some(i) =>
      assert s == s[..i] + [sep] + s[i + 1..];
      [s[..i], s[i + 1..]]
  }

  /** Python's `sep.join(pieces)`. */
  function Join(pieces: seq<string>, sep: char): string
  {
    if |pieces| == 0 then ""
    else if |pieces| == 1 then pieces[0]
    else pieces[0] + [sep] + Join(pieces[1..], sep)
  }

  /** Joining the pieces of a split gives back the original text. */
  lemma RSplitJoin(s: string, sep: char)
    ensures Join(RSplitOnce(s, sep), sep) == s
  {
    var r := RSplitOnce(s, sep);
    if |r| == 2 {
      assert r[1..] == [r[1]];
    }
  }

  /** The split is the only one with a separator-free tail: any `h + [sep] + t` with no
      `sep` in `t` splits back into `h` and `t`. */
  lemma RSplitOfJoin(h: string, sep: char, t: string)
    requires sep !in t
    ensures RSplitOnce(h + [sep] + t, sep) == [h, t]
  {
    var s := h + [sep] + t;
    LastIndexAt(s, sep, |h|);
    assert s[..|h|] == h;
    assert s[|h| + 1..] == t;
  }

  /** The last `c` is at `i` when `s[i] == c` and no `c` follows it. */
  lemma {:induction false} LastIndexAt(s: string, c: char, i: nat)
    requires i < |s| && s[i] == c && c !in s[i + 1..]
    ensures LastIndexOf(s, c) == Some(i)
    decreases |s|
  {
    if i != |s| - 1 {
      assert s[|s| - 1] in s[i + 1..];
      assert s[..|s| - 1][i + 1..] == s[i + 1..|s| - 1];
      assert s[i + 1..] == s[i + 1..|s| - 1] + [s[|s| - 1]];
      LastIndexAt(s[..|s| - 1], c, i);
    }
  }
}
