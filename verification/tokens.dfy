/** Python's argument-less `str.split()` and `str.strip()` test, as the command loop uses them:
    whitespace is every character Python's `str.isspace` accepts. */
module Tokens {

  predicate IsSpace(c: char)
  {
    var n := c as int;
    || 9 <= n <= 13 || 28 <= n <= 32
    || n == 0x85 || n == 0xA0 || n == 0x1680
    || 0x2000 <= n <= 0x200A
    || n == 0x2028 || n == 0x2029 || n == 0x202F || n == 0x205F || n == 0x3000
  }

  /** `not line.strip()`: the line holds nothing but whitespace. */
  predicate IsBlank(s: string)
  {
    forall i :: 0 <= i < |s| ==> IsSpace(s[i])
  }

  /** A token: non-empty and free of whitespace. */
  predicate IsWord(w: string)
  {
    |w| > 0 && forall i :: 0 <= i < |w| ==> !IsSpace(w[i])
  }

  /** The suffix of `s` after its leading whitespace. */
  function SkipSpace(s: string): (t: string)
    ensures |t| <= |s| && t == s[|s| - |t|..]
    ensures IsBlank(s[..|s| - |t|])
    ensures t == [] || !IsSpace(t[0])
    decreases |s|
  {
    if s != [] && IsSpace(s[0]) then SkipSpace(s[1..]) else s
  }

  /** The length of the longest whitespace-free prefix of `s`. */
  function WordLength(s: string): (n: nat)
    ensures n <= |s|
    ensures forall i :: 0 <= i < n ==> !IsSpace(s[i])
    ensures n == |s| || IsSpace(s[n])
    decreases |s|
  {
    if s == [] || IsSpace(s[0]) then 0 else 1 + WordLength(s[1..])
  }

  /** `s.split()`: the maximal whitespace-free runs of `s`, in order. */
  function Split(s: string): (ws: seq<string>)
    decreases |s|
  {
    var t := SkipSpace(s);
    if t == [] then []
    else
      var n := WordLength(t);
      [t[..n]] + Split(t[n..])
  }

  /** A line splits into no tokens exactly when it is blank. */
  lemma SplitEmptyIffBlank(s: string)
    ensures Split(s) == [] <==> IsBlank(s)
  {
    var t := SkipSpace(s);
    if t == [] {
      assert s[..|s|] == s;
    } else {
      assert s[|s| - |t|] == t[0];
    }
  }

  /** Every token of a split is a word. */
  lemma {:induction false} SplitYieldsWords(s: string)
    ensures forall i :: 0 <= i < |Split(s)| ==> IsWord(Split(s)[i])
    decreases |s|
  {
    var t := SkipSpace(s);
    if t != [] {
      var n := WordLength(t);
      assert IsWord(t[..n]);
      SplitYieldsWords(t[n..]);
      var ws := Split(s);
      assert ws == [t[..n]] + Split(t[n..]);
      forall i | 0 <= i < |ws|
        ensures IsWord(ws[i])
      {
        if i > 0 {
          assert ws[i] == Split(t[n..])[i - 1];
        }
      }
    }
  }

  /** Tokens written out with one space between neighbours. */
  function Join(ws: seq<string>): string
  {
    if |ws| == 0 then []
    else if |ws| == 1 then ws[0]
    else ws[0] + [' '] + Join(ws[1..])
  }

  /** Whitespace in front of `s` is skipped together with `s`'s own. */
  lemma {:induction false} SkipSpaceOfBlankPrefix(sp: string, s: string)
    requires IsBlank(sp)
    ensures SkipSpace(sp + s) == SkipSpace(s)
    decreases |sp|
  {
    if sp != [] {
      assert (sp + s)[0] == sp[0];
      assert (sp + s)[1..] == sp[1..] + s;
      SkipSpaceOfBlankPrefix(sp[1..], s);
    } else {
      assert sp + s == s;
    }
  }

  /** Leading whitespace does not change the split. */
  lemma SplitSkipsLeadingSpace(sp: string, s: string)
    requires IsBlank(sp)
    ensures Split(sp + s) == Split(s)
  {
    SkipSpaceOfBlankPrefix(sp, s);
  }

  /** A blank string has nothing left after its leading whitespace. */
  lemma BlankSkipsAll(sp: string)
    requires IsBlank(sp)
    ensures SkipSpace(sp) == []
  {
  }

  /** Trailing whitespace, such as the newline `readlines` leaves on a line, does not change
      the split. */
  lemma {:induction false} SplitTrailingBlank(s: string, sp: string)
    requires IsBlank(sp)
    ensures Split(s + sp) == Split(s)
    decreases |s|
  {
    var t := SkipSpace(s);
    var b := s[..|s| - |t|];
    assert s == b + t;
    assert s + sp == b + (t + sp);
    SkipSpaceOfBlankPrefix(b, t + sp);
    if t == [] {
      assert t + sp == sp;
      BlankSkipsAll(sp);
    } else {
      var n := WordLength(t);
      SplitTrailingWord(t, sp, n);
      SplitTrailingBlank(t[n..], sp);
    }
  }

  /** One step of `SplitTrailingBlank`: the first word of `t + sp` is the first word of `t`,
      and what follows it is the rest of `t` followed by `sp`. */
  lemma SplitTrailingWord(t: string, sp: string, n: nat)
    requires IsBlank(sp) && t != [] && !IsSpace(t[0]) && n == WordLength(t)
    ensures 0 < n <= |t|
    ensures SkipSpace(t + sp) == t + sp
    ensures Split(t + sp) == [t[..n]] + Split(t[n..] + sp)
  {
    assert (t + sp)[0] == t[0];
    TrailingWordLength(t, sp, n);
    SlicesOfAppend(t, sp, n);
  }

  /** Whitespace after `t` does not lengthen its first word. */
  lemma TrailingWordLength(t: string, sp: string, n: nat)
    requires IsBlank(sp) && n == WordLength(t)
    ensures WordLength(t + sp) == n
  {
    var rest := t[n..] + sp;
    assert t + sp == t[..n] + rest;
    if n < |t| {
      assert rest[0] == t[n];
    } else {
      assert rest == sp;
    }
    WordLengthOfWord(t[..n], rest);
  }

  /** Cutting `t + sp` at a position inside `t`. */
  lemma SlicesOfAppend(t: string, sp: string, n: nat)
    requires n <= |t|
    ensures (t + sp)[..n] == t[..n] && (t + sp)[n..] == t[n..] + sp
  {
  }

  /** A word followed by nothing or by whitespace is read back whole. */
  lemma {:induction false} WordLengthOfWord(w: string, rest: string)
    requires forall i :: 0 <= i < |w| ==> !IsSpace(w[i])
    requires rest == [] || IsSpace(rest[0])
    ensures WordLength(w + rest) == |w|
    decreases |w|
  {
    if w != [] {
      assert (w + rest)[1..] == w[1..] + rest;
      WordLengthOfWord(w[1..], rest);
    } else {
      assert w + rest == rest;
    }
  }

  /** A leading word, ended by the end of the string or by whitespace, is the first token. */
  lemma SplitLeadingWord(w: string, rest: string)
    requires IsWord(w)
    requires rest == [] || IsSpace(rest[0])
    ensures Split(w + rest) == [w] + Split(rest)
  {
    var s := w + rest;
    WordLengthOfWord(w, rest);
    assert s[0] == w[0];
    assert SkipSpace(s) == s;
    assert s[..|w|] == w;
    assert s[|w|..] == rest;
  }

  /** A single word splits into itself. */
  lemma SplitOneWord(w: string)
    requires IsWord(w)
    ensures Split(w) == [w]
  {
    var e: string := [];
    assert w + e == w;
    SplitLeadingWord(w, e);
    assert IsBlank(e);
  }

  /** One unfolding of `Join`, for a single word; `SplitJoin` uses these two equations instead of
      unfolding `Join` itself, which keeps its proof within the resource limit. */
  lemma JoinOne(ws: seq<string>)
    requires |ws| == 1
    ensures Join(ws) == ws[0]
  {
  }

  /** One unfolding of `Join`, for two or more words. */
  lemma JoinMore(ws: seq<string>)
    requires |ws| > 1
    ensures Join(ws) == ws[0] + ([' '] + Join(ws[1..]))
  {
  }

  /** A word, one space and more text split into the word and the split of the text. */
  lemma SplitAfterWord(w: string, tail: string)
    requires IsWord(w)
    ensures Split(w + ([' '] + tail)) == [w] + Split(tail)
  {
    SplitLeadingWord(w, [' '] + tail);
    SplitAfterSpace(tail);
  }

  /** A space in front changes nothing. */
  lemma SplitAfterSpace(s: string)
    ensures Split([' '] + s) == Split(s)
  {
    assert IsBlank([' ']);
    SplitSkipsLeadingSpace([' '], s);
  }

  /** One more word in front of a joined list adds one token in front of its split. */
  lemma SplitJoinMore(ws: seq<string>)
    requires |ws| > 1 && IsWord(ws[0])
    ensures Split(Join(ws)) == [ws[0]] + Split(Join(ws[1..]))
  {
    JoinMore(ws);
    SplitAfterWord(ws[0], Join(ws[1..]));
  }

  /** Nothing joined splits into nothing. */
  lemma SplitJoinNone(ws: seq<string>)
    requires |ws| == 0
    ensures Split(Join(ws)) == ws
  {
    assert Join(ws) == [];
    assert IsBlank([]);
  }

  /** A list that is the head of `xs` followed by the tail of `xs` is `xs`. Stated apart so
      that this sequence equality is proved without the `Split`/`Join` terms of `SplitJoin` in
      scope, which keeps that proof within the resource limit. */
  lemma HeadThenTail<T>(xs: seq<T>, ys: seq<T>, rest: seq<T>)
    requires |xs| > 0 && ys == [xs[0]] + rest && rest == xs[1..]
    ensures ys == xs
  {
  }

  /** Splitting tokens joined by single spaces gives the tokens back, so the parameter count
      of a command line is the number of tokens written on it. */
  lemma {:induction false} SplitJoin(ws: seq<string>)
    requires forall i :: 0 <= i < |ws| ==> IsWord(ws[i])
    ensures Split(Join(ws)) == ws
    decreases |ws|
  {
    if |ws| == 0 {
      SplitJoinNone(ws);
    } else if |ws| == 1 {
      JoinOne(ws);
      SplitOneWord(ws[0]);
    } else {
      var tail := ws[1..];
      assert forall i :: 0 <= i < |tail| ==> tail[i] == ws[i + 1];
      SplitJoin(tail);
      SplitJoinMore(ws);
      HeadThenTail(ws, Split(Join(ws)), Split(Join(tail)));
    }
  }
}
