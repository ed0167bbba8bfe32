/** The Python string operations the pipeline uses, on `seq<char>`:
    substring test (`in`), `split`, `join`, `replace` and `lower`. */
module Strings {
  import opened Seqs

  /** `needle` occurs in `hay` starting at position `i`. */
  ghost predicate OccursAt(hay: string, needle: string, i: int) {
    0 <= i && i + |needle| <= |hay| && hay[i..i + |needle|] == needle
  }

  /** Python's `needle in hay`: a left-to-right search. */
  function Contains(hay: string, needle: string): (b: bool)
    ensures b <==> exists i :: OccursAt(hay, needle, i)
    decreases |hay|
  {
    if needle <= hay then
      assert OccursAt(hay, needle, 0);
      true
    else if hay == [] then
      false
    else
      var b := Contains(hay[1..], needle);
      assert b ==> exists i :: OccursAt(hay, needle, i) by {
        if b {
          var j :| OccursAt(hay[1..], needle, j);
          assert hay[j + 1..j + 1 + |needle|] == hay[1..][j..j + |needle|];
          assert OccursAt(hay, needle, j + 1);
        }
      }
      assert (exists i :: OccursAt(hay, needle, i)) ==> b by {
        if exists i :: OccursAt(hay, needle, i) {
          var i :| OccursAt(hay, needle, i);
          assert i != 0;
          assert hay[1..][i - 1..i - 1 + |needle|] == hay[i..i + |needle|];
          assert OccursAt(hay[1..], needle, i - 1);
        }
      }
      b
  }

  /** Every string contains itself and the empty string. */
  lemma ContainsItself(s: string)
    ensures Contains(s, s)
    ensures Contains(s, [])
  {
    assert OccursAt(s, s, 0);
    assert OccursAt(s, [], 0);
  }

  /** A needle inside a part of a concatenation occurs in the concatenation. */
  lemma ContainsInConcat(a: string, b: string, needle: string)
    requires Contains(a, needle) || Contains(b, needle)
    ensures Contains(a + b, needle)
  {
    if Contains(a, needle) {
      var i :| OccursAt(a, needle, i);
      assert (a + b)[i..i + |needle|] == a[i..i + |needle|];
      assert OccursAt(a + b, needle, i);
    } else {
      var i :| OccursAt(b, needle, i);
      assert (a + b)[|a| + i..|a| + i + |needle|] == b[i..i + |needle|];
      assert OccursAt(a + b, needle, |a| + i);
    }
  }

  /** Python's `sep.join(parts)`. */
  function JoinWith(parts: seq<string>, sep: string): string
  {
    if |parts| == 0 then []
    else if |parts| == 1 then parts[0]
    else parts[0] + sep + JoinWith(parts[1..], sep)
  }

  /** A needle with a character the haystack lacks does not occur in it. */
  lemma MissingCharNotContained(hay: string, needle: string, k: nat)
    requires k < |needle| && needle[k] !in hay
    ensures !Contains(hay, needle)
  {
  }

  /** Every part occurs in the joined string. */
  lemma {:induction false} JoinContainsParts(parts: seq<string>, sep: string, i: nat)
    requires i < |parts|
    ensures Contains(JoinWith(parts, sep), parts[i])
    decreases |parts|
  {
    ContainsItself(parts[i]);
    if |parts| > 1 {
      var rest := JoinWith(parts[1..], sep);
      if i == 0 {
        ContainsInConcat(parts[0], sep, parts[0]);
        ContainsInConcat(parts[0] + sep, rest, parts[0]);
      } else {
        JoinContainsParts(parts[1..], sep, i - 1);
        ContainsInConcat(parts[0] + sep, rest, parts[i]);
      }
    }
  }

  /** Python's `s.split(sep)[-1]` for a one-character separator: the text
      after the last separator, or all of `s` when there is none. */
  function LastSegment(s: string, sep: char): (r: string)
    ensures sep !in r
    ensures |r| <= |s| && r == s[|s| - |r|..]
    ensures |r| == |s| || s[|s| - |r| - 1] == sep
    decreases |s|
  {
    if s == [] || s[|s| - 1] == sep then []
    else
      var front := s[..|s| - 1];
      var r := LastSegment(front, sep);
      assert s[|s| - |r| - 1..] == front[|front| - |r|..] + [s[|s| - 1]];
      r + [s[|s| - 1]]
  }

  /** A `sep`-free suffix of `s` preceded by `sep` (or equal to `s`) is the
      last segment: the three properties above determine it. */
  lemma LastSegmentUnique(s: string, sep: char, r: string)
    requires sep !in r
    requires |r| <= |s| && r == s[|s| - |r|..]
    requires |r| == |s| || s[|s| - |r| - 1] == sep
    ensures LastSegment(s, sep) == r
  {
  }

  /** Python's `s.replace(pat, rep)`: a left-to-right scan replacing
      non-overlapping occurrences of `pat` by `rep`. */
  function ReplaceAll(s: string, pat: string, rep: string): (r: string)
    requires pat != []
    ensures |pat| == |rep| ==> |r| == |s|
    decreases |s|
  {
    if |s| < |pat| then s
    else if pat <= s then rep + ReplaceAll(s[|pat|..], pat, rep)
    else [s[0]] + ReplaceAll(s[1..], pat, rep)
  }

  /** Where `pat` does not start at position 0, the scan copies the first
      character and moves on. */
  lemma ReplaceCopiesChar(s: string, pat: string, rep: string)
    requires pat != [] && s != []
    requires !OccursAt(s, pat, 0)
    ensures ReplaceAll(s, pat, rep) == [s[0]] + ReplaceAll(s[1..], pat, rep)
  {
  }

  lemma SliceOfTail(s: string, i: nat, j: nat)
    requires s != [] && i <= j <= |s| - 1
    ensures s[1..][i..j] == s[i + 1..j + 1]
  {
  }

  /** Occurrences in the tail of `s` are occurrences in `s`, one position later. */
  lemma OccursInTail(s: string, pat: string, i: nat)
    requires s != []
    ensures OccursAt(s[1..], pat, i) <==> OccursAt(s, pat, i + 1)
  {
    if i + |pat| <= |s[1..]| {
      SliceOfTail(s, i, i + |pat|);
    }
  }

  /** When no occurrence of `pat` starts before position `n`, the scan copies
      `s[..n]` unchanged and carries on from there. */
  lemma {:induction false} ReplaceSkipsPrefix(s: string, pat: string, rep: string, n: nat)
    requires pat != [] && n <= |s|
    requires forall i :: 0 <= i < n ==> !OccursAt(s, pat, i)
    ensures ReplaceAll(s, pat, rep) == s[..n] + ReplaceAll(s[n..], pat, rep)
    decreases n
  {
    if n == 0 {
      assert s[n..] == s;
    } else {
      ReplaceSkipsPrefix(s, pat, rep, n - 1);
      ReplaceStep(s, pat, rep, n - 1);
      PrefixGrows(s, n, ReplaceAll(s[n..], pat, rep));
    }
  }

  /** One step of the scan at a position where `pat` does not occur. */
  lemma ReplaceStep(s: string, pat: string, rep: string, k: nat)
    requires pat != [] && k < |s| && !OccursAt(s, pat, k)
    ensures ReplaceAll(s[k..], pat, rep) == [s[k]] + ReplaceAll(s[k + 1..], pat, rep)
  {
    var t := s[k..];
    assert !OccursAt(t, pat, 0) by {
      if |pat| <= |t| {
        assert t[0..|pat|] == s[k..k + |pat|];
      }
    }
    ReplaceCopiesChar(t, pat, rep);
    assert t[1..] == s[k + 1..];
  }

  /** Without an occurrence of `pat`, replacing changes nothing. */
  lemma ReplaceWithoutMatch(s: string, pat: string, rep: string)
    requires pat != [] && !Contains(s, pat)
    ensures ReplaceAll(s, pat, rep) == s
  {
    ReplaceSkipsPrefix(s, pat, rep, |s|);
    assert s[..|s|] == s;
  }

  /** ASCII case folding, the part of Python's `str.lower` the model covers. */
  function LowerChar(c: char): char {
    if 'A' <= c <= 'Z' then (c as int - 'A' as int + 'a' as int) as char else c
  }

  /** `LowerChar` applied to every character. */
  function Lower(s: string): (r: string)
    ensures |r| == |s|
    ensures forall i :: 0 <= i < |s| ==> r[i] == LowerChar(s[i])
  {
    seq(|s|, i requires 0 <= i < |s| => LowerChar(s[i]))
  }

  /** Lowering distributes over concatenation and is idempotent. */
  lemma LowerFacts(a: string, b: string)
    ensures Lower(a + b) == Lower(a) + Lower(b)
    ensures Lower(Lower(a)) == Lower(a)
  {
  }

  /** Lowering commutes with slicing. */
  lemma LowerSlice(s: string, i: nat, j: nat)
    requires i <= j <= |s|
    ensures Lower(s)[i..j] == Lower(s[i..j])
  {
  }

  /** Lowering produces a lower-case letter only from that letter or its
      upper-case form. */
  lemma LowerAvoids(s: string, c: char)
    requires 'a' <= c <= 'z'
    requires c !in s && (c as int - 'a' as int + 'A' as int) as char !in s
    ensures c !in Lower(s)
  {
    forall i | 0 <= i < |s| ensures Lower(s)[i] != c {
      assert s[i] != c;
    }
  }
}
