/** Whitespace normalisation of titles and abstracts: Python's
    `re.sub(r'\s+', ' ', text.strip())`, guarded by `if not text`. */
module Whitespace {
  import opened Strings

  /** Python's `str.isspace` for one character, which is also what `\s`
      matches in a `str` pattern and what `str.strip()` removes. */
  predicate IsSpace(c: char) {
    || ('\t' <= c <= '\r')
    || ('\U{1C}' <= c <= ' ')
    || c == '\U{85}' || c == '\U{A0}' || c == '\U{1680}'
    || ('\U{2000}' <= c <= '\U{200A}')
    || c == '\U{2028}' || c == '\U{2029}' || c == '\U{202F}' || c == '\U{205F}'
    || c == '\U{3000}'
  }

  ghost predicate AllSpace(s: string) {
    forall i :: 0 <= i < |s| ==> IsSpace(s[i])
  }

  /** A non-empty run of non-whitespace characters. */
  ghost predicate IsWord(w: string) {
    w != [] && forall i :: 0 <= i < |w| ==> !IsSpace(w[i])
  }

  ghost predicate AllWords(ws: seq<string>) {
    forall i :: 0 <= i < |ws| ==> IsWord(ws[i])
  }

  /** The normal form `_clean_text` produces: no whitespace at either end,
      every whitespace character a plain space, never two in a row. */
  ghost predicate Normalized(s: string) {
    && (s != [] ==> !IsSpace(s[0]) && !IsSpace(s[|s| - 1]))
    && (forall i :: 0 <= i < |s| ==> PlainIfSpace(s, i))
    && (forall i :: 0 <= i < |s| - 1 ==> NotTwoSpaces(s, i))
  }

  /** Position `i` of `s` holds a plain space if it holds whitespace at all. */
  ghost predicate PlainIfSpace(s: string, i: int)
    requires 0 <= i < |s|
  {
    IsSpace(s[i]) ==> s[i] == ' '
  }

  /** Positions `i` and `i + 1` of `s` are not both whitespace. */
  ghost predicate NotTwoSpaces(s: string, i: int)
    requires 0 <= i < |s| - 1
  {
    !(IsSpace(s[i]) && IsSpace(s[i + 1]))
  }

  /** Python's `s.lstrip()`. */
  function TrimLeft(s: string): (r: string)
    ensures |r| <= |s| && r == s[|s| - |r|..]
    ensures AllSpace(s[..|s| - |r|])
    ensures r == [] || !IsSpace(r[0])
    decreases |s|
  {
    if s != [] && IsSpace(s[0]) then
      var r := TrimLeft(s[1..]);
      assert s[..|s| - |r|] == [s[0]] + s[1..][..|s[1..]| - |r|];
      r
    else s
  }

  /** Python's `s.rstrip()`. */
  function TrimRight(s: string): (r: string)
    ensures |r| <= |s| && r == s[..|r|]
    ensures AllSpace(s[|r|..])
    ensures r == [] || !IsSpace(r[|r| - 1])
    decreases |s|
  {
    if s != [] && IsSpace(s[|s| - 1]) then
      var r := TrimRight(s[..|s| - 1]);
      assert s[|r|..] == s[..|s| - 1][|r|..] + [s[|s| - 1]];
      r
    else s
  }

  /** Python's `s.strip()`. */
  function Strip(s: string): (r: string)
    ensures |r| <= |s|
    ensures r == [] <==> AllSpace(s)
    ensures r == [] || (!IsSpace(r[0]) && !IsSpace(r[|r| - 1]))
    ensures exists i, j :: 0 <= i <= j <= |s| && r == s[i..j] && AllSpace(s[..i]) && AllSpace(s[j..])
  {
    TrimRightKeepsFirst(TrimLeft(s));
    StripEmpty(s);
    StripSlice(s);
    TrimRight(TrimLeft(s))
  }

  /** Stripping removes a run of whitespace at each end and nothing else. */
  lemma {:induction false} StripSlice(s: string)
    ensures var r := TrimRight(TrimLeft(s));
      exists i, j :: 0 <= i <= j <= |s| && r == s[i..j] && AllSpace(s[..i]) && AllSpace(s[j..])
  {
    var t := TrimLeft(s);
    SpaceAround(s, t, TrimRight(t));
  }

  /** A whitespace-free cut at the front followed by one at the back. */
  lemma {:induction false} SpaceAround(s: string, t: string, r: string)
    requires |t| <= |s| && t == s[|s| - |t|..] && AllSpace(s[..|s| - |t|])
    requires |r| <= |t| && r == t[..|r|] && AllSpace(t[|r|..])
    ensures exists i, j :: 0 <= i <= j <= |s| && r == s[i..j] && AllSpace(s[..i]) && AllSpace(s[j..])
  {
    var i := |s| - |t|;
    var j := i + |r|;
    assert r == s[i..j];
    assert s[j..] == t[|r|..];
  }

  /** Stripping leaves nothing exactly when there is nothing but whitespace. */
  lemma {:induction false} StripEmpty(s: string)
    ensures TrimRight(TrimLeft(s)) == [] <==> AllSpace(s)
  {
    if TrimRight(TrimLeft(s)) == [] {
      StrippedToNothing(s);
    } else if AllSpace(s) {
      AllSpaceTrims(s);
    }
  }

  lemma {:induction false} StrippedToNothing(s: string)
    requires TrimRight(TrimLeft(s)) == []
    ensures AllSpace(s)
  {
    var t := TrimLeft(s);
    TrimRightNothing(t);
    TrimLeftNothing(s);
  }

  lemma {:induction false} TrimRightNothing(t: string)
    requires TrimRight(t) == []
    ensures AllSpace(t)
  {
    assert t[0..] == t;
  }

  lemma {:induction false} TrimLeftNothing(s: string)
    requires AllSpace(TrimLeft(s))
    ensures AllSpace(s)
  {
    var t := TrimLeft(s);
    assert t == [];
    assert s[..|s|] == s;
  }

  /** Python's `re.sub(r'\s+', ' ', s)`: every maximal run of whitespace
      becomes one space. */
  function Collapse(s: string): string
    decreases |s|
  {
    if s == [] then []
    else if IsSpace(s[0]) then " " + Collapse(TrimLeft(s))
    else [s[0]] + Collapse(s[1..])
  }

  /** `WorkingPaper._clean_text`. */
  function CleanText(text: string): (r: string)
    ensures Normalized(r)
    ensures text == [] ==> r == []
    ensures r == JoinWith(Words(text), " ")
  {
    CleanIsJoinOfWords(text);
    JoinOfWordsNormalized(Words(text));
    if text == [] then [] else Collapse(Strip(text))
  }

  // ---------------------------------------------------------------------
  // Reference definition: Python's `" ".join(s.split())`.

  /** Length of the leading run of non-whitespace characters. */
  function WordLength(t: string): (n: nat)
    ensures n <= |t|
    ensures forall i :: 0 <= i < n ==> !IsSpace(t[i])
    ensures n < |t| ==> IsSpace(t[n])
  {
    if t == [] || IsSpace(t[0]) then 0 else 1 + WordLength(t[1..])
  }

  /** Python's `s.split()` with no argument: the maximal non-whitespace runs. */
  function Words(s: string): (ws: seq<string>)
    ensures AllWords(ws)
    decreases |s|
  {
    var t := TrimLeft(s);
    if t == [] then []
    else
      var n := WordLength(t);
      assert n > 0 by { assert !IsSpace(t[0]); }
      var w, rest := t[..n], Words(t[n..]);
      assert IsWord(w);
      ConsWords(w, rest);
      [w] + rest
  }

  lemma ConsWords(w: string, ws: seq<string>)
    requires IsWord(w) && AllWords(ws)
    ensures AllWords([w] + ws)
  {
    assert forall i :: 1 <= i < |ws| + 1 ==> ([w] + ws)[i] == ws[i - 1];
  }

  // ---------------------------------------------------------------------
  // Lemmas.

  lemma AllSpaceTrims(s: string)
    requires AllSpace(s)
    ensures TrimLeft(s) == [] && TrimRight(s) == []
  {
  }

  lemma {:induction false} TrimLeftSkipsSpace(sp: string, x: string)
    requires AllSpace(sp)
    ensures TrimLeft(sp + x) == TrimLeft(x)
    decreases |sp|
  {
    if sp != [] {
      assert (sp + x)[1..] == sp[1..] + x;
      TrimLeftSkipsSpace(sp[1..], x);
    } else {
      assert sp + x == x;
    }
  }

  lemma TrimLeftIdempotent(s: string)
    ensures TrimLeft(TrimLeft(s)) == TrimLeft(s)
  {
  }

  /** `Words` ignores leading whitespace. */
  lemma WordsSkipLeadingSpace(s: string)
    ensures Words(s) == Words(TrimLeft(s))
  {
    TrimLeftIdempotent(s);
  }

  lemma WordsSkipSpacePrefix(sp: string, x: string)
    requires AllSpace(sp)
    ensures Words(sp + x) == Words(x)
  {
    TrimLeftSkipsSpace(sp, x);
    WordsSkipLeadingSpace(sp + x);
    WordsSkipLeadingSpace(x);
  }

  lemma WordsSkipOneSpace(x: string)
    ensures Words(" " + x) == Words(x)
  {
    assert IsSpace(" "[0]);
    WordsSkipSpacePrefix(" ", x);
  }

  /** A word followed by nothing or by whitespace is read back as one word. */
  lemma {:induction false} WordLengthOfWord(w: string, x: string)
    requires forall i :: 0 <= i < |w| ==> !IsSpace(w[i])
    requires x == [] || IsSpace(x[0])
    ensures WordLength(w + x) == |w|
    decreases |w|
  {
    if w != [] {
      assert (w + x)[1..] == w[1..] + x;
      WordLengthOfWord(w[1..], x);
    } else {
      assert w + x == x;
    }
  }

  /** A string starting with a word splits into that word and the words after it. */
  lemma WordsOfWordThen(w: string, x: string)
    requires IsWord(w)
    requires x == [] || IsSpace(x[0])
    ensures Words(w + x) == [w] + Words(x)
  {
    var s := w + x;
    assert TrimLeft(s) == s;
    WordLengthOfWord(w, x);
    assert s[..|w|] == w && s[|w|..] == x;
  }

  /** Removing trailing whitespace distributes over a concatenation whose
      first part already ends in a non-space or whose second part has one. */
  lemma {:induction false} TrimRightAppend(a: string, b: string)
    requires (a != [] && !IsSpace(a[|a| - 1])) || !AllSpace(b)
    ensures TrimRight(a + b) == a + TrimRight(b)
    decreases |b|
  {
    if b == [] {
      assert a + b == a;
    } else if IsSpace(b[|b| - 1]) {
      var b' := b[..|b| - 1];
      assert (a + b)[..|a + b| - 1] == a + b';
      assert !AllSpace(b) ==> !AllSpace(b') by {
        if !AllSpace(b) {
          var i :| 0 <= i < |b| && !IsSpace(b[i]);
          assert b'[i] == b[i];
        }
      }
      TrimRightAppend(a, b');
    }
  }

  /** A string that does not start with whitespace is its leading word
      followed by the rest. */
  lemma SplitFirstWord(t: string) returns (w: string, rest: string)
    requires t != [] && !IsSpace(t[0])
    ensures t == w + rest && IsWord(w) && (rest == [] || IsSpace(rest[0]))
    ensures Words(t) == [w] + Words(rest)
    ensures |rest| < |t|
  {
    var n := WordLength(t);
    w, rest := t[..n], t[n..];
    assert t == w + rest;
    WordsOfWordThen(w, rest);
  }

  lemma TrimRightKeepsFirst(s: string)
    ensures TrimRight(s) == [] || TrimRight(s)[0] == s[0]
  {
  }

  /** Dropping the whitespace before the first word of `u` changes neither
      `Words(u)` nor `Words(TrimRight(u))`. */
  lemma WordsAfterLeadingSpace(u: string)
    requires TrimLeft(u) != []
    ensures Words(u) == Words(TrimLeft(u))
    ensures Words(TrimRight(u)) == Words(TrimRight(TrimLeft(u)))
  {
    var t := TrimLeft(u);
    var sp := u[..|u| - |t|];
    assert u == sp + t;
    WordsSkipLeadingSpace(u);
    TrimRightAppend(sp, t) by { assert !IsSpace(t[0]); }
    WordsSkipSpacePrefix(sp, TrimRight(t));
  }

  /** `Words` ignores trailing whitespace. */
  lemma {:induction false} WordsTrimRight(u: string)
    ensures Words(TrimRight(u)) == Words(u)
    decreases |u|
  {
    var t := TrimLeft(u);
    if t == [] {
      assert AllSpace(u) by { assert u[..|u| - |t|] == u; }
      AllSpaceTrims(u);
    } else {
      WordsAfterLeadingSpace(u);
      var w, rest := SplitFirstWord(t);
      TrimRightAppend(w, rest);
      var rt := TrimRight(rest);
      TrimRightKeepsFirst(rest);
      WordsOfWordThen(w, rt);
      WordsTrimRight(rest);
    }
  }

  /** `Collapse` copies a leading run of non-whitespace. */
  lemma {:induction false} CollapseWordPrefix(w: string, x: string)
    requires forall i :: 0 <= i < |w| ==> !IsSpace(w[i])
    ensures Collapse(w + x) == w + Collapse(x)
    decreases |w|
  {
    if w != [] {
      assert (w + x)[1..] == w[1..] + x;
      CollapseWordPrefix(w[1..], x);
    } else {
      assert w + x == x;
    }
  }

  /** Joining a word in front of a non-empty list of words. */
  lemma JoinCons(w: string, ws: seq<string>)
    requires ws != []
    ensures JoinWith([w] + ws, " ") == w + (" " + JoinWith(ws, " "))
  {
    assert ([w] + ws)[1..] == ws;
    Associative(w, " ", JoinWith(ws, " "));
  }

  lemma Associative<T>(a: seq<T>, b: seq<T>, c: seq<T>)
    ensures a + b + c == a + (b + c)
  {
  }

  lemma {:induction false} TrimLeftKeepsLast(s: string)
    requires s != [] && !IsSpace(s[|s| - 1])
    ensures TrimLeft(s) != [] && TrimLeft(s)[|TrimLeft(s)| - 1] == s[|s| - 1]
    decreases |s|
  {
    if IsSpace(s[0]) {
      var t := s[1..];
      assert t[|t| - 1] == s[|s| - 1];
      TrimLeftKeepsLast(t);
    }
  }

  /** A non-empty string whose first and last characters are not whitespace. */
  ghost predicate Stripped(t: string) {
    t != [] && !IsSpace(t[0]) && !IsSpace(t[|t| - 1])
  }

  /** After the first word of a stripped string comes either nothing or a
      run of whitespace and then another stripped string. */
  lemma SplitStripped(t: string) returns (w: string, rest: string)
    requires Stripped(t)
    ensures IsWord(w) && Words(t) == [w] + Words(rest)
    ensures Collapse(t) == w + Collapse(rest)
    ensures rest == [] || (Stripped(TrimLeft(rest)) && |TrimLeft(rest)| < |t|
      && Collapse(rest) == " " + Collapse(TrimLeft(rest)) && Words(rest) == Words(TrimLeft(rest)))
  {
    w, rest := SplitFirstWord(t);
    CollapseWordPrefix(w, rest);
    if rest != [] {
      assert rest[|rest| - 1] == t[|t| - 1];
      TrimLeftKeepsLast(rest);
      WordsSkipLeadingSpace(rest);
    }
  }

  /** On a stripped string, `Collapse` is the space-join of its words. */
  lemma {:induction false} CollapseStripped(t: string)
    requires t == [] || Stripped(t)
    ensures Collapse(t) == JoinWith(Words(t), " ")
    decreases |t|
  {
    if t != [] {
      var w, rest := SplitStripped(t);
      if rest != [] {
        var t' := TrimLeft(rest);
        CollapseStripped(t');
        var w', rest' := SplitStripped(t');
        JoinCons(w, Words(t'));
      } else {
        assert w + [] == w;
      }
    }
  }

  /** `_clean_text` agrees with Python's `" ".join(text.split())`. */
  lemma CleanIsJoinOfWords(text: string)
    ensures (if text == [] then [] else Collapse(Strip(text))) == JoinWith(Words(text), " ")
  {
    if text != [] {
      var l := TrimLeft(text);
      WordsSkipLeadingSpace(text);
      WordsTrimRight(l);
      assert Strip(text) == [] || Stripped(Strip(text));
      CollapseStripped(Strip(text));
    }
  }

  /** Joining words with single spaces gives a normalised string. */
  lemma {:induction false} JoinOfWordsNormalized(ws: seq<string>)
    requires AllWords(ws)
    ensures Normalized(JoinWith(ws, " "))
    ensures ws != [] ==> JoinWith(ws, " ") != [] && JoinWith(ws, " ")[0] == ws[0][0]
    decreases |ws|
  {
    if |ws| > 1 {
      JoinOfWordsNormalized(ws[1..]);
      var w, j := ws[0], JoinWith(ws[1..], " ");
      var s := w + " " + j;
      assert IsWord(w);
      forall i | 0 <= i < |s|
        ensures PlainIfSpace(s, i)
      {
        if i > |w| {
          assert PlainIfSpace(j, i - |w| - 1);
        }
      }
      forall i | 0 <= i < |s| - 1
        ensures NotTwoSpaces(s, i)
      {
        if i >= |w| + 1 {
          assert NotTwoSpaces(j, i - |w| - 1);
          assert s[i] == j[i - |w| - 1] && s[i + 1] == j[i - |w|];
        }
      }
    }
  }

  lemma ConsTail<T>(s: seq<T>)
    requires s != []
    ensures [s[0]] + s[1..] == s
  {
  }

  /** Round trip: splitting a space-join of words gives the words back. */
  lemma {:induction false} WordsOfJoin(ws: seq<string>)
    requires AllWords(ws)
    ensures Words(JoinWith(ws, " ")) == ws
    decreases |ws|, 1
  {
    if |ws| == 1 {
      WordsOfWord(ws[0]);
      assert ws == [ws[0]];
    } else if |ws| > 1 {
      WordsOfLongerJoin(ws);
    }
  }

  /** The inductive step of `WordsOfJoin`. */
  lemma {:induction false} WordsOfLongerJoin(ws: seq<string>)
    requires AllWords(ws) && |ws| > 1
    ensures Words(JoinWith(ws, " ")) == ws
    decreases |ws|, 0
  {
    WordsOfJoinStep(ws);
    WordsOfJoin(ws[1..]);
    ConsTail(ws);
  }

  /** A single word splits into itself. */
  lemma WordsOfWord(w: string)
    requires IsWord(w)
    ensures Words(w) == [w]
  {
    WordsOfWordThen(w, []);
    assert w + [] == w;
  }

  /** The first word of a join of several words comes off first. */
  lemma {:induction false} WordsOfJoinStep(ws: seq<string>)
    requires AllWords(ws) && |ws| > 1
    ensures Words(JoinWith(ws, " ")) == [ws[0]] + Words(JoinWith(ws[1..], " "))
  {
    var w, j := ws[0], JoinWith(ws[1..], " ");
    assert IsWord(w);
    JoinCons(w, ws[1..]);
    assert [w] + ws[1..] == ws;
    assert IsSpace((" " + j)[0]);
    WordsOfWordThen(w, " " + j);
    WordsSkipOneSpace(j);
  }

  /** `_clean_text` is idempotent. */
  lemma CleanTextIdempotent(text: string)
    ensures CleanText(CleanText(text)) == CleanText(text)
  {
    WordsOfJoin(Words(text));
  }

  /** A normalised string is exactly what `_clean_text` leaves unchanged. */
  lemma CleanTextFixedPoints(s: string)
    ensures CleanText(s) == s <==> Normalized(s)
  {
    if Normalized(s) {
      NormalizedIsJoinOfWords(s);
    }
  }

  /** In a normalised string, a word is followed by nothing or by one space
      and another normalised string that starts with a word. */
  lemma NormalizedTail(s: string, w: string, rest: string)
    requires Normalized(s) && s == w + rest && IsWord(w) && rest != [] && IsSpace(rest[0])
    ensures rest == " " + rest[1..]
    ensures rest[1..] != [] && !IsSpace(rest[1..][0]) && Normalized(rest[1..])
  {
    var r' := rest[1..];
    assert rest[0] == s[|w|];
    assert |w| + 1 < |s|;
    assert r'[0] == s[|w| + 1];
    assert NotTwoSpaces(s, |w|) && PlainIfSpace(s, |w|);
    forall i | 0 <= i < |r'| ensures r'[i] == s[|w| + 1 + i] { }
    forall i | 0 <= i < |r'| ensures PlainIfSpace(r', i) {
      assert PlainIfSpace(s, |w| + 1 + i);
    }
    forall i | 0 <= i < |r'| - 1 ensures NotTwoSpaces(r', i) {
      assert NotTwoSpaces(s, |w| + 1 + i);
    }
    assert rest == [rest[0]] + r';
  }

  lemma {:induction false} NormalizedIsJoinOfWords(s: string)
    requires Normalized(s)
    ensures JoinWith(Words(s), " ") == s
    decreases |s|
  {
    if s != [] {
      var w, rest := SplitFirstWord(s);
      if rest != [] {
        NormalizedTail(s, w, rest);
        var r' := rest[1..];
        WordsSkipOneSpace(r');
        NormalizedIsJoinOfWords(r');
        var w', rest' := SplitFirstWord(r');
        JoinCons(w, Words(r'));
      } else {
        assert w + [] == w;
      }
    }
  }

  /** `_clean_text` gives `""` exactly for empty or all-whitespace input. */
  lemma CleanTextEmpty(text: string)
    ensures CleanText(text) == [] <==> AllSpace(text)
  {
    var t := TrimLeft(text);
    if AllSpace(text) {
      AllSpaceTrims(text);
    } else {
      assert t != [];
      WordsSkipLeadingSpace(text);
      assert Words(text) != [];
      JoinOfWordsNormalized(Words(text));
    }
  }
}
