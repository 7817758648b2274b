/**
 The whitespace normaliser applied to the text extracted from a PDF
 (`preprocess_text` in main.py): every maximal run of whitespace becomes one
 space, newlines are replaced by spaces, and both ends are stripped.
 */
module Preprocessing {

  /** The characters Python treats as whitespace in `str.isspace`, which is
      also what the `\s` class of a `re` pattern over `str` and the
      argument-less `str.strip` use. */
  predicate IsSpace(c: char) {
    c == ' '
    || ('\U{9}' <= c <= '\U{D}')        // \t \n \v \f \r
    || ('\U{1C}' <= c <= '\U{1F}')      // file, group, record and unit separators
    || c == '\U{85}' || c == '\U{A0}' || c == '\U{1680}'
    || ('\U{2000}' <= c <= '\U{200A}')
    || c == '\U{2028}' || c == '\U{2029}' || c == '\U{202F}'
    || c == '\U{205F}' || c == '\U{3000}'
  }

  predicate AllSpace(s: string) {
    forall i :: 0 <= i < |s| ==> IsSpace(s[i])
  }

  /** The only whitespace character is the plain space, and no two spaces are
      adjacent. */
  predicate SingleSpaced(s: string) {
    && (forall i :: 0 <= i < |s| && IsSpace(s[i]) ==> s[i] == ' ')
    && (forall i, j :: 0 <= i < |s| && 0 <= j < |s| && j == i + 1 ==> !(s[i] == ' ' && s[j] == ' '))
  }

  /** What a normalised text looks like: single-spaced, with no space at
      either end. */
  predicate Normalized(s: string) {
    SingleSpaced(s) && (s != [] ==> s[0] != ' ' && s[|s| - 1] != ' ')
  }

  /** The text with every whitespace character deleted. */
  function NonSpace(s: string): string {
    if s == [] then []
    else (if IsSpace(s[0]) then [] else [s[0]]) + NonSpace(s[1..])
  }

  /** `s.lstrip()`: the suffix of `s` that starts at its first
      non-whitespace character (see `LeadingSpaceSplit`). */
  function DropLeadingSpace(s: string): (r: string)
    ensures |r| <= |s|
    ensures r != [] ==> !IsSpace(r[0])
  {
    if s != [] && IsSpace(s[0]) then DropLeadingSpace(s[1..]) else s
  }

  /** `s.rstrip()`: the prefix of `s` that ends at its last non-whitespace
      character (see `TrailingSpaceSplit`). */
  function DropTrailingSpace(s: string): (r: string)
    ensures |r| <= |s|
    ensures r != [] ==> !IsSpace(r[|r| - 1])
  {
    if s != [] && IsSpace(s[|s| - 1]) then DropTrailingSpace(s[..|s| - 1]) else s
  }

  /** `lstrip` removes a prefix of whitespace and nothing else. */
  lemma {:induction false} LeadingSpaceSplit(s: string) returns (k: nat)
    ensures k <= |s| && DropLeadingSpace(s) == s[k..] && AllSpace(s[..k])
  {
    if s != [] && IsSpace(s[0]) {
      var k' := LeadingSpaceSplit(s[1..]);
      k := k' + 1;
      assert s[1..][k'..] == s[k..];
      forall i | 0 <= i < k ensures IsSpace(s[..k][i]) {
        if i > 0 { assert s[..k][i] == s[1..][..k'][i - 1]; }
      }
    } else {
      k := 0;
    }
  }

  /** `rstrip` removes a suffix of whitespace and nothing else. */
  lemma {:induction false} TrailingSpaceSplit(s: string) returns (k: nat)
    ensures k <= |s| && DropTrailingSpace(s) == s[..k] && AllSpace(s[k..])
  {
    if s != [] && IsSpace(s[|s| - 1]) {
      var s' := s[..|s| - 1];
      k := TrailingSpaceSplit(s');
      assert s'[..k] == s[..k];
      forall i | 0 <= i < |s| - k ensures IsSpace(s[k..][i]) {
        if i < |s| - 1 - k { assert s[k..][i] == s'[k..][i]; }
      }
    } else {
      k := |s|;
    }
  }

  lemma TrailingSpaceIsPrefix(s: string)
    ensures DropTrailingSpace(s) == s[..|DropTrailingSpace(s)|]
  {
    var k := TrailingSpaceSplit(s);
  }

  /** `s.strip()` */
  function Strip(s: string): (r: string)
    ensures |r| <= |s|
    ensures r != [] ==> !IsSpace(r[0]) && !IsSpace(r[|r| - 1])
  {
    var lead := DropLeadingSpace(s);
    TrailingSpaceIsPrefix(lead);
    DropTrailingSpace(lead)
  }

  /** `re.sub(r'\s+', ' ', s)`: the regular expression matches greedily from
      left to right, so each maximal run of whitespace becomes one space. */
  function CollapseSpace(s: string): (r: string)
    ensures SingleSpaced(r)
    ensures r == [] <==> s == []
    ensures r != [] ==> (r[0] == ' ' <==> IsSpace(s[0]))
    decreases |s|
  {
    if s == [] then []
    else if IsSpace(s[0]) then
      var rest := CollapseSpace(DropLeadingSpace(s[1..]));
      SingleSpacedCons(' ', rest);
      [' '] + rest
    else
      var rest := CollapseSpace(s[1..]);
      SingleSpacedCons(s[0], rest);
      [s[0]] + rest
  }

  lemma SingleSpacedCons(c: char, s: string)
    requires SingleSpaced(s)
    requires IsSpace(c) ==> c == ' '
    requires c == ' ' && s != [] ==> s[0] != ' '
    ensures SingleSpaced([c] + s)
  {
    var t := [c] + s;
    forall i, j | 0 <= i < |t| && 0 <= j < |t| && j == i + 1
      ensures !(t[i] == ' ' && t[j] == ' ')
    {
      if i > 0 { assert t[i] == s[i - 1] && t[j] == s[j - 1]; }
    }
  }

  /** `s.replace(target, replacement)` for a one-character `target` and `replacement`. */
  function ReplaceChar(s: string, target: char, replacement: char): (r: string)
    ensures |r| == |s|
    ensures forall i :: 0 <= i < |s| ==> r[i] == (if s[i] == target then replacement else s[i])
  {
    if s == [] then [] else [if s[0] == target then replacement else s[0]] + ReplaceChar(s[1..], target, replacement)
  }

  /** `preprocess_text` */
  function PreprocessText(text: string): (r: string)
    ensures Normalized(r)
    ensures NonSpace(r) == NonSpace(text)
    ensures r == JoinWords(Words(text))
  {
    var collapsed := CollapseSpace(text);
    var replaced := ReplaceChar(collapsed, '\n', ' ');
    ReplaceNewlineNoOp(collapsed);
    StripNormalizes(collapsed);
    CollapseKeepsText(text);
    StripKeepsText(collapsed);
    StripCollapseJoinsWords(text);
    Strip(replaced)
  }

  // ---------------------------------------------------------------------------
  // Deleting whitespace

  lemma {:induction false} NonSpaceAppend(a: string, b: string)
    ensures NonSpace(a + b) == NonSpace(a) + NonSpace(b)
  {
    if a == [] {
      assert a + b == b;
    } else {
      assert (a + b)[0] == a[0];
      assert (a + b)[1..] == a[1..] + b;
      NonSpaceAppend(a[1..], b);
    }
  }

  /** A text has no non-whitespace character exactly when it is all
      whitespace. */
  lemma {:induction false} NonSpaceEmpty(s: string)
    ensures NonSpace(s) == [] <==> AllSpace(s)
  {
    if s != [] {
      NonSpaceEmpty(s[1..]);
      assert AllSpace(s) <==> IsSpace(s[0]) && AllSpace(s[1..]) by {
        if IsSpace(s[0]) && AllSpace(s[1..]) {
          forall i | 0 <= i < |s| ensures IsSpace(s[i]) {
            if i > 0 { assert s[i] == s[1..][i - 1]; }
          }
        }
      }
    }
  }

  /** In a normalised text every space sits between two non-space
      characters, so a non-empty normalised text has a non-space
      character. */
  lemma NormalizedNonEmpty(s: string)
    requires Normalized(s) && s != []
    ensures NonSpace(s) != []
  {
    NonSpaceEmpty(s);
    assert !IsSpace(s[0]);
  }

  /** Collapsing runs keeps every non-whitespace character, in order. */
  lemma {:induction false} CollapseKeepsText(s: string)
    ensures NonSpace(CollapseSpace(s)) == NonSpace(s)
    decreases |s|
  {
    if s == [] {
    } else if IsSpace(s[0]) {
      var rest := DropLeadingSpace(s[1..]);
      CollapseKeepsText(rest);
      NonSpaceAppend([' '], CollapseSpace(rest));
      var k := LeadingSpaceSplit(s[1..]);
      var lead := s[1..][..k];
      assert s[1..] == lead + rest;
      NonSpaceAppend(lead, rest);
      NonSpaceEmpty(lead);
    } else {
      CollapseKeepsText(s[1..]);
      NonSpaceAppend([s[0]], CollapseSpace(s[1..]));
    }
  }

  /** Collapsing leaves a single-spaced text unchanged. */
  lemma {:induction false} CollapseFixesSingleSpaced(s: string)
    requires SingleSpaced(s)
    ensures CollapseSpace(s) == s
    decreases |s|
  {
    if s != [] {
      assert SingleSpaced(s[1..]);
      CollapseFixesSingleSpaced(s[1..]);
      if IsSpace(s[0]) {
        assert s[0] == ' ';
        assert DropLeadingSpace(s[1..]) == s[1..] by {
          if |s| > 1 { assert s[1] != ' '; assert !IsSpace(s[1]); }
        }
      }
    }
  }

  lemma StripFixesTrimmed(s: string)
    requires s != [] ==> !IsSpace(s[0]) && !IsSpace(s[|s| - 1])
    ensures Strip(s) == s
  {
  }

  // ---------------------------------------------------------------------------
  // Properties of `preprocess_text`

  /** `strip()` keeps a slice of its input and removes only whitespace
      around it. */
  lemma StripSlice(s: string) returns (i: nat, j: nat)
    ensures i <= j <= |s| && Strip(s) == s[i..j]
    ensures AllSpace(s[..i]) && AllSpace(s[j..])
    ensures Strip(s) != [] ==> !IsSpace(Strip(s)[0]) && !IsSpace(Strip(s)[|Strip(s)| - 1])
  {
    i := LeadingSpaceSplit(s);
    var lead := s[i..];
    assert Strip(s) == DropTrailingSpace(lead);
    var k := TrailingSpaceSplit(lead);
    j := i + k;
    assert |lead| == |s| - i;
    assert lead[..k] == s[i..j];
    assert lead[k..] == s[j..];
  }

  /** Stripping a single-spaced text leaves a normalised text. */
  lemma StripNormalizes(s: string)
    requires SingleSpaced(s)
    ensures Normalized(Strip(s))
  {
    var i, j := StripSlice(s);
    SingleSpacedSlice(s, i, j);
  }

  /** Stripping deletes nothing but whitespace. */
  lemma StripKeepsText(s: string)
    ensures NonSpace(Strip(s)) == NonSpace(s)
  {
    var i, j := StripSlice(s);
    var front, kept, back := s[..i], s[i..j], s[j..];
    SplitInThree(s, i, j);
    NonSpaceAppend(front, kept + back);
    NonSpaceAppend(kept, back);
    NonSpaceEmpty(front);
    NonSpaceEmpty(back);
    assert NonSpace(s) == [] + (NonSpace(kept) + []);
  }

  lemma SplitInThree<T>(s: seq<T>, i: nat, j: nat)
    requires i <= j <= |s|
    ensures s == s[..i] + (s[i..j] + s[j..])
  {
  }

  lemma SingleSpacedSlice(s: string, i: nat, j: nat)
    requires SingleSpaced(s) && i <= j <= |s|
    ensures SingleSpaced(s[i..j])
  {
    var t := s[i..j];
    forall k, l | 0 <= k < l < |t| && l == k + 1 ensures !(t[k] == ' ' && t[l] == ' ') {
      assert t[k] == s[i + k] && t[l] == s[i + l];
    }
  }

  /** The newline replacement after the collapse never changes anything. */
  lemma ReplaceNewlineNoOp(collapsed: string)
    requires SingleSpaced(collapsed)
    ensures ReplaceChar(collapsed, '\n', ' ') == collapsed
  {
    var r := ReplaceChar(collapsed, '\n', ' ');
    forall i | 0 <= i < |collapsed| ensures r[i] == collapsed[i] {
      if collapsed[i] == '\n' { assert IsSpace(collapsed[i]); }
    }
  }

  /** `preprocess_text` is `strip` after the collapse. */
  lemma PreprocessIsStripCollapse(text: string)
    ensures PreprocessText(text) == Strip(CollapseSpace(text))
  {
    ReplaceNewlineNoOp(CollapseSpace(text));
  }

  /** The output is normalised: no whitespace but single interior spaces (in
      particular no newline or tab), and no space at either end. */
  lemma PreprocessNormalizes(text: string)
    ensures Normalized(PreprocessText(text))
    ensures '\n' !in PreprocessText(text) && '\t' !in PreprocessText(text)
  {
    PreprocessIsStripCollapse(text);
    StripNormalizes(CollapseSpace(text));
    SingleSpacedHasNoBreaks(PreprocessText(text));
  }

  lemma SingleSpacedHasNoBreaks(s: string)
    requires SingleSpaced(s)
    ensures '\n' !in s && '\t' !in s
  {
    if '\n' in s || '\t' in s {
      var i :| 0 <= i < |s| && (s[i] == '\n' || s[i] == '\t');
      assert IsSpace(s[i]);
    }
  }

  /** Deleting all whitespace from the input or from the output gives the
      same text: non-whitespace characters are kept, in order. */
  lemma PreprocessKeepsText(text: string)
    ensures NonSpace(PreprocessText(text)) == NonSpace(text)
  {
    PreprocessIsStripCollapse(text);
    StripKeepsText(CollapseSpace(text));
    CollapseKeepsText(text);
  }

  /** Normalised texts are exactly the fixed points of `preprocess_text`. */
  lemma PreprocessFixedPoints(s: string)
    ensures PreprocessText(s) == s <==> Normalized(s)
  {
    if Normalized(s) {
      CollapseFixesSingleSpaced(s);
      ReplaceNewlineNoOp(s);
      if s != [] {
        assert !IsSpace(s[0]) && !IsSpace(s[|s| - 1]);
      }
      StripFixesTrimmed(s);
    } else {
      PreprocessNormalizes(s);
    }
  }

  /** Normalising twice is the same as normalising once. */
  lemma PreprocessIdempotent(text: string)
    ensures PreprocessText(PreprocessText(text)) == PreprocessText(text)
  {
    PreprocessNormalizes(text);
    PreprocessFixedPoints(PreprocessText(text));
  }

  /** The output is empty exactly when the input is empty or all
      whitespace. */
  lemma PreprocessEmpty(text: string)
    ensures PreprocessText(text) == [] <==> AllSpace(text)
  {
    var r := PreprocessText(text);
    PreprocessKeepsText(text);
    PreprocessNormalizes(text);
    NonSpaceEmpty(text);
    if r != [] {
      NormalizedNonEmpty(r);
    }
  }
  // ---------------------------------------------------------------------------
  // An independent description: `" ".join(text.split())`

  predicate NoSpace(w: string) {
    forall i :: 0 <= i < |w| ==> !IsSpace(w[i])
  }

  /** The longest prefix of `s` without whitespace. */
  function TakeWord(s: string): (w: string)
    ensures |w| <= |s| && w == s[..|w|]
    ensures NoSpace(w)
    ensures |w| < |s| ==> IsSpace(s[|w|])
  {
    if s == [] || IsSpace(s[0]) then [] else [s[0]] + TakeWord(s[1..])
  }

  /** `s.split()`: the maximal runs of non-whitespace characters, in
      order. */
  function Words(s: string): (ws: seq<string>)
    ensures forall k :: 0 <= k < |ws| ==> ws[k] != [] && NoSpace(ws[k])
    decreases |s|
  {
    var t := DropLeadingSpace(s);
    if t == [] then []
    else
      var w := TakeWord(t);
      assert w != [] by { assert !IsSpace(t[0]); }
      [w] + Words(t[|w|..])
  }

  /** `" ".join(ws)` */
  function JoinWords(ws: seq<string>): string {
    if ws == [] then ""
    else if |ws| == 1 then ws[0]
    else ws[0] + " " + JoinWords(ws[1..])
  }

  /** Python's `split()` yields nothing exactly for an all-whitespace
      text. */
  lemma WordsEmpty(s: string)
    ensures Words(s) == [] <==> AllSpace(s)
  {
    var k := LeadingSpaceSplit(s);
    if k < |s| {
      assert !IsSpace(s[k..][0]);
    } else {
      assert s[..k] == s;
    }
  }

  /** A text without whitespace passes through the collapse unchanged. */
  lemma {:induction false} CollapseWord(w: string, rest: string)
    requires NoSpace(w)
    ensures CollapseSpace(w + rest) == w + CollapseSpace(rest)
  {
    if w == [] {
      assert w + rest == rest;
    } else {
      assert (w + rest)[0] == w[0];
      assert (w + rest)[1..] == w[1..] + rest;
      CollapseWord(w[1..], rest);
    }
  }

  /** Stripping the right end of `a + b` only reaches into `a` when `b` is
      all whitespace. */
  lemma {:induction false} DropTrailingAppend(a: string, b: string)
    ensures AllSpace(b) ==> DropTrailingSpace(a + b) == DropTrailingSpace(a)
    ensures !AllSpace(b) ==> DropTrailingSpace(a + b) == a + DropTrailingSpace(b)
    decreases |b|
  {
    if b == [] {
      assert a + b == a;
    } else {
      var b' := b[..|b| - 1];
      assert (a + b)[..|a + b| - 1] == a + b';
      DropTrailingAppend(a, b');
      if IsSpace(b[|b| - 1]) {
        assert AllSpace(b) <==> AllSpace(b') by {
          if AllSpace(b') {
            forall i | 0 <= i < |b| ensures IsSpace(b[i]) {
              if i < |b| - 1 { assert b[i] == b'[i]; }
            }
          }
        }
      }
    }
  }

  /** Stripping ignores a leading space. */
  lemma StripSpaceFront(x: string)
    ensures Strip([' '] + x) == Strip(x)
  {
    assert ([' '] + x)[1..] == x;
  }

  /** Leading whitespace of the input does not reach the stripped
      collapse. */
  lemma StripCollapseLead(s: string)
    ensures Strip(CollapseSpace(s)) == Strip(CollapseSpace(DropLeadingSpace(s)))
  {
    if s != [] && IsSpace(s[0]) {
      StripSpaceFront(CollapseSpace(DropLeadingSpace(s)));
    }
  }

  /** A word followed by whitespace strips to the word. */
  lemma StripWordThenSpace(w: string, c: string)
    requires w != [] && NoSpace(w) && AllSpace(c)
    ensures Strip(w + c) == w
  {
    assert (w + c)[0] == w[0];
    DropTrailingAppend(w, c);
  }

  /** A word, one space and a text that starts with a non-space character:
      stripping only touches the right end of that text. */
  lemma StripWordThenText(w: string, c: string)
    requires w != [] && NoSpace(w) && c != [] && !IsSpace(c[0])
    ensures Strip(w + [' '] + c) == w + " " + Strip(c)
  {
    assert (w + [' '] + c)[0] == w[0];
    DropTrailingAppend(w + [' '], c);
  }

  /** The last word of a text. */
  lemma StripCollapseLastWord(w: string, rest: string)
    requires w != [] && NoSpace(w) && AllSpace(rest)
    ensures Strip(CollapseSpace(w + rest)) == w
  {
    CollapseWord(w, rest);
    var c := CollapseSpace(rest);
    CollapseKeepsText(rest);
    NonSpaceEmpty(rest);
    NonSpaceEmpty(c);
    StripWordThenSpace(w, c);
  }

  /** A word followed by more words. */
  lemma StripCollapseNextWord(w: string, rest: string)
    requires w != [] && NoSpace(w) && rest != [] && IsSpace(rest[0]) && !AllSpace(rest)
    ensures Strip(CollapseSpace(w + rest)) == w + " " + Strip(CollapseSpace(rest))
  {
    CollapseWord(w, rest);
    var t' := DropLeadingSpace(rest);
    var k := LeadingSpaceSplit(rest);
    var c' := CollapseSpace(t');
    assert CollapseSpace(rest) == [' '] + c';
    assert t' != [];
    assert w + CollapseSpace(rest) == w + [' '] + c';
    StripWordThenText(w, c');
    StripCollapseLead(rest);
  }

  /** The strip of the collapse, which is what `preprocess_text` computes,
      joins the words of the input with single spaces. */
  lemma {:induction false} StripCollapseJoinsWords(s: string)
    ensures Strip(CollapseSpace(s)) == JoinWords(Words(s))
    decreases |s|
  {
    StripCollapseLead(s);
    var t := DropLeadingSpace(s);
    if t != [] {
      var w, rest := WordsStep(s);
      var ws := Words(rest);
      WordsEmpty(rest);
      if AllSpace(rest) {
        StripCollapseLastWord(w, rest);
        assert Strip(CollapseSpace(t)) == w;
        assert JoinWords(Words(s)) == w;
      } else {
        StripCollapseNextWord(w, rest);
        StripCollapseJoinsWords(rest);
        JoinWordsCons(w, ws);
        assert Strip(CollapseSpace(t)) == w + " " + JoinWords(ws);
      }
    }
  }

  lemma JoinWordsCons(w: string, ws: seq<string>)
    requires ws != []
    ensures JoinWords([w] + ws) == w + " " + JoinWords(ws)
  {
    assert ([w] + ws)[1..] == ws;
  }

  /** One step of `split()`: the first word and what follows it. */
  lemma WordsStep(s: string) returns (w: string, rest: string)
    requires DropLeadingSpace(s) != []
    ensures DropLeadingSpace(s) == w + rest && |rest| < |s|
    ensures w != [] && NoSpace(w) && (rest != [] ==> IsSpace(rest[0]))
    ensures Words(s) == [w] + Words(rest)
  {
    var t := DropLeadingSpace(s);
    w := TakeWord(t);
    rest := t[|w|..];
    assert Words(s) == [w] + Words(rest);
    assert !IsSpace(t[0]);
    assert t == w + rest;
  }

  /** `preprocess_text(text) == " ".join(text.split())` for every text. */
  lemma PreprocessJoinsWords(text: string)
    ensures PreprocessText(text) == JoinWords(Words(text))
  {
    PreprocessIsStripCollapse(text);
    StripCollapseJoinsWords(text);
  }
}
