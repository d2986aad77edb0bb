/** Python's `str.split()` with no separator: the string is cut at runs of
    whitespace, and leading and trailing whitespace yields no empty words.
    The `tags` accessor of a photo is this split of the raw tag string. */
module Words {

  /** Python's `str.isspace()` on one character. */
  predicate IsSpace(c: char) {
    || c == ' '
    || '\t' <= c <= '\r'
    || '\U{1c}' <= c <= '\U{1f}'
    || c == '\U{85}' || c == '\U{a0}' || c == '\U{1680}'
    || '\U{2000}' <= c <= '\U{200a}'
    || c == '\U{2028}' || c == '\U{2029}' || c == '\U{202f}'
    || c == '\U{205f}' || c == '\U{3000}'
  }

  /** A non-empty string without whitespace. */
  predicate IsWord(w: string) {
    |w| > 0 && forall i :: 0 <= i < |w| ==> !IsSpace(w[i])
  }

  /** The end of the run of characters from `i` on that are whitespace
      exactly when `space` holds: the first index from `i` on whose
      character is not of that kind, or `|s|`. */
  function RunEnd(s: string, i: nat, space: bool): (j: nat)
    requires i <= |s|
    ensures i <= j <= |s|
    ensures forall k :: i <= k < j ==> IsSpace(s[k]) == space
    ensures j < |s| ==> IsSpace(s[j]) != space
    decreases |s| - i
  {
    if i == |s| || IsSpace(s[i]) != space then i else RunEnd(s, i + 1, space)
  }

  /** Any index with the three properties above is the end of the run. */
  lemma {:induction false} RunEndUnique(s: string, i: nat, space: bool, j: nat)
    requires i <= j <= |s|
    requires forall k :: i <= k < j ==> IsSpace(s[k]) == space
    requires j < |s| ==> IsSpace(s[j]) != space
    ensures RunEnd(s, i, space) == j
  {
  }

  /** The words of `s` from position `i` on: skip the whitespace, take
      the word up to the next whitespace, and go on after it. */
  function SplitFrom(s: string, i: nat): seq<string>
    requires i <= |s|
    decreases |s| - i
  {
    var k := RunEnd(s, i, true);
    if k == |s| then []
    else
      var e := RunEnd(s, k, false);
      [s[k..e]] + SplitFrom(s, e)
  }

  /** `s.split()`. */
  function Split(s: string): seq<string> {
    SplitFrom(s, 0)
  }

  /** `t` reads like `s` from position `d` on. */
  ghost predicate ShiftOf(t: string, s: string, d: nat) {
    |t| + d == |s| && forall m :: 0 <= m < |t| ==> t[m] == s[m + d]
  }

  /** A run found in a shifted copy is the same run found in the original. */
  lemma {:induction false} RunEndShift(t: string, s: string, d: nat, j: nat, space: bool)
    requires ShiftOf(t, s, d) && j <= |t|
    ensures RunEnd(t, j, space) == RunEnd(s, j + d, space) - d
  {
    var e := RunEnd(s, j + d, space);
    forall m | j <= m < e - d ensures IsSpace(t[m]) == space {
      assert t[m] == s[m + d];
    }
    if e - d < |t| {
      assert t[e - d] == s[e];
    }
    RunEndUnique(t, j, space, e - d);
  }

  lemma {:induction false} SliceShift(t: string, s: string, d: nat, k: nat, e: nat)
    requires ShiftOf(t, s, d) && k <= e <= |t|
    ensures t[k..e] == s[k + d..e + d]
  {
    forall m | 0 <= m < e - k ensures t[k..e][m] == s[k + d..e + d][m] {
      assert t[k + m] == s[k + m + d];
    }
  }

  /** The words of a shifted copy from `j` on are those of the original
      from `j + d` on. */
  lemma {:induction false} SplitFromShift(t: string, s: string, d: nat, j: nat)
    requires ShiftOf(t, s, d) && j <= |t|
    ensures SplitFrom(t, j) == SplitFrom(s, j + d)
    decreases |t| - j
  {
    RunEndShift(t, s, d, j, true);
    var k := RunEnd(t, j, true);
    if k < |t| {
      RunEndShift(t, s, d, k, false);
      var e := RunEnd(t, k, false);
      SliceShift(t, s, d, k, e);
      SplitFromShift(t, s, d, e);
      assert SplitFrom(t, j) == [t[k..e]] + SplitFrom(t, e);
      assert SplitFrom(s, j + d) == [s[k + d..e + d]] + SplitFrom(s, e + d);
    } else {
      assert SplitFrom(t, j) == [] == SplitFrom(s, j + d);
    }
  }

  /** The words from position `i` on are the words of the suffix there. */
  lemma {:induction false} SplitFromSuffix(s: string, i: nat)
    requires i <= |s|
    ensures SplitFrom(s, i) == Split(s[i..])
  {
    SplitFromShift(s[i..], s, i, 0);
  }

  /** One step of the split: the first word, then the split of the rest. */
  lemma {:induction false} SplitStep(s: string)
    ensures RunEnd(s, 0, true) == |s| ==> Split(s) == []
    ensures RunEnd(s, 0, true) < |s| ==>
              var k := RunEnd(s, 0, true);
              var e := RunEnd(s, k, false);
              Split(s) == [s[k..e]] + Split(s[e..])
  {
    var k := RunEnd(s, 0, true);
    if k < |s| {
      SplitFromSuffix(s, RunEnd(s, k, false));
    }
  }

  /** The word a split takes at a non-blank position. */
  lemma {:induction false} WordAt(s: string, k: nat)
    requires k < |s| && !IsSpace(s[k])
    ensures IsWord(s[k..RunEnd(s, k, false)])
  {
    var w := s[k..RunEnd(s, k, false)];
    forall i | 0 <= i < |w| ensures !IsSpace(w[i]) {
      assert w[i] == s[k + i];
    }
  }

  /** Every element of the split is a word. */
  lemma {:induction false} SplitWords(s: string)
    ensures forall i :: 0 <= i < |Split(s)| ==> IsWord(Split(s)[i])
    decreases |s|
  {
    var k := RunEnd(s, 0, true);
    if k < |s| {
      var e := RunEnd(s, k, false);
      var w, rest := s[k..e], Split(s[e..]);
      SplitStep(s);
      SplitWords(s[e..]);
      WordAt(s, k);
      var ws := Split(s);
      assert ws == [w] + rest;
      forall i | 0 <= i < |ws| ensures IsWord(ws[i]) {
        if i > 0 {
          assert ws[i] == rest[i - 1];
        }
      }
    }
  }

  /** Whitespace throughout, possibly empty. */
  predicate IsBlank(g: string) {
    forall i :: 0 <= i < |g| ==> IsSpace(g[i])
  }

  /** `gaps[0] + words[0] + gaps[1] + ... + words[n - 1] + gaps[n]`. */
  function Interleave(gaps: seq<string>, words: seq<string>): string
    requires |gaps| == |words| + 1
    decreases |words|
  {
    if words == [] then gaps[0] else gaps[0] + words[0] + Interleave(gaps[1..], words[1..])
  }

  /** `s` is `words` with blank `gaps` around and between them, and no two
      words are adjacent. */
  ghost predicate SeparatedBy(s: string, words: seq<string>, gaps: seq<string>) {
    && |gaps| == |words| + 1
    && (forall i :: 0 <= i < |gaps| ==> IsBlank(gaps[i]))
    && (forall i :: 0 < i < |words| ==> gaps[i] != [])
    && Interleave(gaps, words) == s
  }

  /** The first character of a gap-free interleaving is that of its first
      word. */
  lemma {:induction false} InterleaveStartsWithWord(gaps: seq<string>, words: seq<string>)
    requires |gaps| == |words| + 1 && words != [] && gaps[0] == [] && words[0] != []
    ensures Interleave(gaps, words) != [] && Interleave(gaps, words)[0] == words[0][0]
  {
    assert Interleave(gaps, words) == words[0] + Interleave(gaps[1..], words[1..]);
  }

  /** A word, blanks and a separated string, put in front of each other,
      are separated again. */
  lemma {:induction false} SeparatedCons(g0: string, w: string, rest: string, words: seq<string>, gaps: seq<string>)
    requires IsBlank(g0) && SeparatedBy(rest, words, gaps) && (words != [] ==> gaps[0] != [])
    ensures SeparatedBy(g0 + w + rest, [w] + words, [g0] + gaps)
  {
    var ws, gs := [w] + words, [g0] + gaps;
    assert gs[1..] == gaps && ws[1..] == words;
    forall i | 0 < i < |ws| ensures gs[i] != [] {
      assert gs[i] == gaps[i - 1];
    }
  }

  /** After a word of the split, the rest of the string starts with a
      blank: a further word cannot follow without a gap. */
  lemma {:induction false} GapAfterWord(s: string, e: nat, gaps: seq<string>)
    requires e <= |s| && (e < |s| ==> IsSpace(s[e]))
    requires SeparatedBy(s[e..], Split(s[e..]), gaps)
    ensures Split(s[e..]) != [] ==> gaps[0] != []
  {
    var rest, ws := s[e..], Split(s[e..]);
    if ws != [] && gaps[0] == [] {
      SplitStep(rest);
      SplitWords(rest);
      InterleaveStartsWithWord(gaps, ws);
    }
  }

  lemma {:induction false} ThreeParts(s: string, k: nat, e: nat)
    requires k <= e <= |s|
    ensures s == s[..k] + s[k..e] + s[e..]
  {
  }

  /** Each word of the split is a maximal run of non-whitespace: `s` is
      blanks, the first word, at least one blank, the second word, and so
      on, ending in blanks. */
  lemma {:induction false} SplitSeparates(s: string)
    ensures exists gaps :: SeparatedBy(s, Split(s), gaps)
    decreases |s|
  {
    var k := RunEnd(s, 0, true);
    SplitStep(s);
    if k == |s| {
      assert SeparatedBy(s, Split(s), [s]);
    } else {
      var e := RunEnd(s, k, false);
      var rest := s[e..];
      SplitSeparates(rest);
      var g :| SeparatedBy(rest, Split(rest), g);
      GapAfterWord(s, e, g);
      assert IsBlank(s[..k]);
      SeparatedCons(s[..k], s[k..e], rest, Split(rest), g);
      ThreeParts(s, k, e);
      assert SeparatedBy(s, Split(s), [s[..k]] + g);
    }
  }

  /** The characters of `s` that are not whitespace, in order. */
  function Visible(s: string): string {
    if s == [] then []
    else (if IsSpace(s[0]) then [] else [s[0]]) + Visible(s[1..])
  }

  /** The words one after another, with nothing between them. */
  function Concat(words: seq<string>): string {
    if words == [] then [] else words[0] + Concat(words[1..])
  }

  /** `' '.join(words)`. */
  function Join(words: seq<string>): string {
    if words == [] then []
    else if |words| == 1 then words[0]
    else words[0] + " " + Join(words[1..])
  }

  lemma {:induction false} VisibleAppend(a: string, b: string)
    ensures Visible(a + b) == Visible(a) + Visible(b)
  {
    if a == [] {
      assert a + b == b;
    } else {
      assert (a + b)[1..] == a[1..] + b;
      VisibleAppend(a[1..], b);
    }
  }

  lemma {:induction false} VisibleOfBlank(s: string)
    ensures Visible(s) == [] <==> forall i :: 0 <= i < |s| ==> IsSpace(s[i])
  {
    if s != [] {
      VisibleOfBlank(s[1..]);
      if !IsSpace(s[0]) {
        assert Visible(s)[0] == s[0];
      } else {
        assert forall i :: 1 <= i < |s| ==> s[i] == s[1..][i - 1];
      }
    }
  }

  lemma {:induction false} VisibleOfWord(w: string)
    requires forall i :: 0 <= i < |w| ==> !IsSpace(w[i])
    ensures Visible(w) == w
  {
    if w != [] {
      VisibleOfWord(w[1..]);
    }
  }

  lemma {:induction false} VisibleSkipsSpaces(s: string)
    ensures Visible(s) == Visible(s[RunEnd(s, 0, true)..])
  {
    var k := RunEnd(s, 0, true);
    assert s == s[..k] + s[k..];
    VisibleAppend(s[..k], s[k..]);
    VisibleOfBlank(s[..k]);
  }

  lemma {:induction false} VisibleOfWordThenRest(s: string, k: nat)
    requires k <= |s|
    ensures Visible(s[k..]) == s[k..RunEnd(s, k, false)] + Visible(s[RunEnd(s, k, false)..])
  {
    var e := RunEnd(s, k, false);
    var w := s[k..e];
    assert s[k..] == w + s[e..];
    VisibleAppend(w, s[e..]);
    forall i | 0 <= i < |w| ensures !IsSpace(w[i]) {
      assert w[i] == s[k + i];
    }
    VisibleOfWord(w);
  }

  /** No character but whitespace is dropped, and none is reordered: the
      words put back together are exactly the visible characters of `s`. */
  lemma {:induction false} SplitKeepsVisible(s: string)
    ensures Concat(Split(s)) == Visible(s)
    decreases |s|
  {
    var k := RunEnd(s, 0, true);
    VisibleSkipsSpaces(s);
    if k < |s| {
      var e := RunEnd(s, k, false);
      VisibleOfWordThenRest(s, k);
      SplitKeepsVisible(s[e..]);
      SplitStep(s);
      assert Concat(Split(s)) == s[k..e] + Concat(Split(s[e..]));
    } else {
      SplitStep(s);
      assert s[k..] == [];
    }
  }

  /** An empty or all-blank string, and only such a string, has no words. */
  lemma {:induction false} SplitEmpty(s: string)
    ensures Split(s) == [] <==> forall i :: 0 <= i < |s| ==> IsSpace(s[i])
  {
    SplitKeepsVisible(s);
    VisibleOfBlank(s);
    if Split(s) != [] {
      assert |Concat(Split(s))| >= |Split(s)[0]| > 0;
    }
  }

  lemma {:induction false} SplitWord(w: string)
    requires IsWord(w)
    ensures Split(w) == [w]
  {
    RunEndUnique(w, 0, true, 0);
    RunEndUnique(w, 0, false, |w|);
    assert w[0..|w|] == w && w[|w|..] == [];
    SplitStep(w);
    SplitStep([]);
  }

  lemma {:induction false} SplitLeadingSpace(rest: string)
    ensures Split(" " + rest) == Split(rest)
  {
    var r := " " + rest;
    var k := RunEnd(rest, 0, true);
    forall i | 0 <= i < k + 1 ensures IsSpace(r[i]) {
      if i > 0 {
        assert r[i] == rest[i - 1];
      }
    }
    if k < |rest| {
      assert r[k + 1] == rest[k];
    }
    RunEndUnique(r, 0, true, k + 1);
    if k < |rest| {
      var e := RunEnd(rest, k, false);
      forall i | k + 1 <= i < e + 1 ensures !IsSpace(r[i]) {
        assert r[i] == rest[i - 1];
      }
      if e < |rest| {
        assert r[e + 1] == rest[e];
      }
      RunEndUnique(r, k + 1, false, e + 1);
      assert r[k + 1..e + 1] == rest[k..e];
      assert r[e + 1..] == rest[e..];
    }
    SplitStep(r);
    SplitStep(rest);
  }

  lemma {:induction false} SplitWordThenSpace(w: string, rest: string)
    requires IsWord(w)
    ensures Split(w + " " + rest) == [w] + Split(rest)
  {
    var s := w + (" " + rest);
    assert w + " " + rest == s;
    RunEndUnique(s, 0, true, 0);
    forall i | 0 <= i < |w| ensures !IsSpace(s[i]) {
      assert s[i] == w[i];
    }
    assert s[|w|] == ' ';
    RunEndUnique(s, 0, false, |w|);
    assert s[0..|w|] == w && s[|w|..] == " " + rest;
    SplitStep(s);
    SplitLeadingSpace(rest);
  }

  lemma {:induction false} SplitJoinCons(w: string, rest: seq<string>)
    requires IsWord(w) && rest != [] && Split(Join(rest)) == rest
    ensures Split(Join([w] + rest)) == [w] + rest
  {
    var words := [w] + rest;
    assert words[0] == w && words[1..] == rest;
    SplitWordThenSpace(w, Join(rest));
  }

  /** Splitting undoes joining with single spaces, whenever the joined
      strings are words. */
  lemma {:induction false} SplitJoin(words: seq<string>)
    requires forall i :: 0 <= i < |words| ==> IsWord(words[i])
    ensures Split(Join(words)) == words
  {
    if |words| == 1 {
      SplitWord(words[0]);
    } else if |words| > 1 {
      var rest := words[1..];
      assert forall i :: 0 <= i < |rest| ==> IsWord(rest[i]) by {
        forall i | 0 <= i < |rest| ensures IsWord(rest[i]) {
          assert rest[i] == words[i + 1];
        }
      }
      SplitJoin(rest);
      SplitJoinCons(words[0], rest);
      assert words == [words[0]] + rest;
    }
  }
}
