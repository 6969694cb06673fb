/**
 Text normalisation (backend/internal/location/normalize.go) over an abstract
 alphabet: what a character becomes by lower-casing, the Đ rule and canonical
 decomposition, which characters are letters or digits, which are combining
 marks, and which are white space.
 */
module Normalize {
  datatype Kind = Kept | Dropped | Separator

  datatype Alphabet = Alphabet(fold: char -> string, kind: char -> Kind, space: char -> bool)

  const MAX_RUNES := 512

  /** Folding a folded letter changes nothing; white space is neither letter nor mark. */
  ghost predicate Sane(a: Alphabet) {
    && (forall c, i :: 0 <= i < |a.fold(c)| && a.kind(a.fold(c)[i]) == Kept ==> a.fold(a.fold(c)[i]) == [a.fold(c)[i]])
    && (forall c :: a.space(c) ==> a.kind(c) == Separator)
    && a.space(' ') && a.fold(' ') == " "
  }

  // ---------- white space at the ends ----------

  function TrimLeft(a: Alphabet, s: string): (r: string)
    ensures |r| <= |s|
  {
    if s != [] && a.space(s[0]) then TrimLeft(a, s[1..]) else s
  }

  function TrimRight(a: Alphabet, s: string): (r: string)
    ensures |r| <= |s|
  {
    if s != [] && a.space(s[|s| - 1]) then TrimRight(a, s[..|s| - 1]) else s
  }

  function Trim(a: Alphabet, s: string): string {
    TrimRight(a, TrimLeft(a, s))
  }

  // ---------- the loop ----------

  function Fold(a: Alphabet, s: string): string {
    if s == [] then [] else a.fold(s[0]) + Fold(a, s[1..])
  }

  /** What the loop writes after `out` for the characters `s`, given whether it wrote a space last. */
  function Squeeze(a: Alphabet, out: string, s: string, previousSpace: bool): string
    decreases s
  {
    if s == [] then out
    else
      match a.kind(s[0])
      case Dropped => Squeeze(a, out, s[1..], previousSpace)
      case Kept => Squeeze(a, out + [s[0]], s[1..], false)
      case Separator => Squeeze(a, if previousSpace then out else out + [' '], s[1..], true)
  }

  function Normalized(a: Alphabet, value: string): string {
    var v := Trim(a, value);
    if v == [] || |v| > MAX_RUNES then [] else Trim(a, Squeeze(a, [], Fold(a, v), true))
  }

  method Normalize(a: Alphabet, value: string) returns (r: string)
    ensures r == Normalized(a, value)
  {
    var v := Trim(a, value);
    if v == [] || |v| > MAX_RUNES {
      return [];
    }
    var decomposed := Fold(a, v);
    var builder, previousSpace := [], true;
    for i := 0 to |decomposed|
      invariant Squeeze(a, builder, decomposed[i..], previousSpace) == Squeeze(a, [], decomposed, true)
    {
      var character := decomposed[i];
      if a.kind(character) == Dropped {
        continue;
      }
      if a.kind(character) == Kept {
        builder := builder + [character];
        previousSpace := false;
        continue;
      }
      if !previousSpace {
        builder := builder + [' '];
        previousSpace := true;
      }
    }
    return Trim(a, builder);
  }

  // ---------- what comes out ----------

  /** Words of kept, folded characters, separated by one space each. */
  predicate Tidy(a: Alphabet, s: string) {
    && (forall i :: 0 <= i < |s| ==> s[i] == ' ' || (a.kind(s[i]) == Kept && a.fold(s[i]) == [s[i]]))
    && (forall i :: 0 <= i < |s| - 1 ==> s[i] != ' ' || s[i + 1] != ' ')
  }

  predicate Trimmed(s: string) {
    s != [] ==> s[0] != ' ' && s[|s| - 1] != ' '
  }

  predicate Folded(a: Alphabet, s: string) {
    forall i :: 0 <= i < |s| && a.kind(s[i]) == Kept ==> a.fold(s[i]) == [s[i]]
  }

  lemma {:induction false} FoldIsFolded(a: Alphabet, s: string)
    requires Sane(a)
    ensures Folded(a, Fold(a, s))
  {
    if s != [] { FoldIsFolded(a, s[1..]); }
  }

  lemma {:induction false} SqueezeIsTidy(a: Alphabet, out: string, s: string, previousSpace: bool)
    requires Sane(a) && Folded(a, s) && Tidy(a, out) && (out != [] ==> out[0] != ' ')
    requires previousSpace <==> out == [] || out[|out| - 1] == ' '
    ensures var r := Squeeze(a, out, s, previousSpace); Tidy(a, r) && (r != [] ==> r[0] != ' ')
    decreases s
  {
    if s != [] {
      match a.kind(s[0])
      case Dropped => SqueezeIsTidy(a, out, s[1..], previousSpace);
      case Kept => SqueezeIsTidy(a, out + [s[0]], s[1..], false);
      case Separator => SqueezeIsTidy(a, if previousSpace then out else out + [' '], s[1..], true);
    }
  }

  lemma TrimKeepsTrimmed(a: Alphabet, s: string)
    requires Sane(a) && Tidy(a, s) && Trimmed(s)
    ensures Trim(a, s) == s
  {
    if s != [] { assert a.kind(s[0]) == Kept && a.kind(s[|s| - 1]) == Kept; }
  }

  lemma TrimsOneSpace(a: Alphabet, s: string)
    requires Sane(a) && Tidy(a, s) && s != [] && s[0] != ' ' && s[|s| - 1] == ' '
    ensures Trim(a, s) == s[..|s| - 1]
  {
    var t := s[..|s| - 1];
    assert s[|s| - 2] != ' ' && t[|t| - 1] == s[|s| - 2] && t[0] == s[0];
    assert a.kind(s[0]) == Kept;
    TrimKeepsTrimmed(a, t);
    assert Trim(a, s) == TrimRight(a, t) == t;
  }

  lemma TrimTidy(a: Alphabet, s: string)
    requires Sane(a) && Tidy(a, s) && (s != [] ==> s[0] != ' ')
    ensures Tidy(a, Trim(a, s)) && Trimmed(Trim(a, s))
  {
    if s != [] && s[|s| - 1] == ' ' { TrimsOneSpace(a, s); } else { TrimKeepsTrimmed(a, s); }
  }

  /** The result is tidy and trimmed, on any input. */
  lemma NormalizedIsTidy(a: Alphabet, value: string)
    requires Sane(a)
    ensures Tidy(a, Normalized(a, value)) && Trimmed(Normalized(a, value))
  {
    var v := Trim(a, value);
    FoldIsFolded(a, v);
    SqueezeIsTidy(a, [], Fold(a, v), true);
    TrimTidy(a, Squeeze(a, [], Fold(a, v), true));
  }

  // ---------- when it is a fixed point ----------

  lemma {:induction false} FoldKeepsTidy(a: Alphabet, s: string)
    requires Sane(a) && (forall i :: 0 <= i < |s| ==> s[i] == ' ' || a.fold(s[i]) == [s[i]])
    ensures Fold(a, s) == s
  {
    if s != [] {
      FoldKeepsTidy(a, s[1..]);
      assert a.fold(s[0]) == [s[0]];
    }
  }

  lemma {:induction false} SqueezeKeepsTidy(a: Alphabet, out: string, s: string, previousSpace: bool)
    requires Sane(a) && Tidy(a, s) && (previousSpace && s != [] ==> s[0] != ' ')
    ensures Squeeze(a, out, s, previousSpace) == out + s
    decreases s
  {
    if s == [] {
      assert out + s == out;
    } else {
      assert out + [s[0]] + s[1..] == out + s;
      SqueezeKeepsTidy(a, out + [s[0]], s[1..], s[0] == ' ');
    }
  }

  /** Normalising again changes nothing exactly when the result is no longer than the limit: decomposition can make it longer. */
  lemma FixedPointWithinLimit(a: Alphabet, value: string)
    requires Sane(a)
    ensures Normalized(a, Normalized(a, value)) == Normalized(a, value) <==> |Normalized(a, value)| <= MAX_RUNES
  {
    var n := Normalized(a, value);
    NormalizedIsTidy(a, value);
    TrimKeepsTrimmed(a, n);
    if n != [] && |n| <= MAX_RUNES {
      FoldKeepsTidy(a, n);
      SqueezeKeepsTidy(a, [], n, true);
      assert [] + n == n;
    }
  }

  // ---------- the words ----------

  /** The words of a text already read up to `word`, split at spaces. */
  function Words(word: string, s: string): seq<string>
    decreases s
  {
    if s == [] then Ended(word)
    else if s[0] == ' ' then Ended(word) + Words([], s[1..])
    else Words(word + [s[0]], s[1..])
  }

  function Ended(word: string): seq<string> {
    if word == [] then [] else [word]
  }

  /** The words of a raw text: runs of kept characters, split at separators, marks left out. */
  function RawWords(a: Alphabet, word: string, s: string): seq<string>
    decreases s
  {
    if s == [] then Ended(word)
    else
      match a.kind(s[0])
      case Dropped => RawWords(a, word, s[1..])
      case Kept => RawWords(a, word + [s[0]], s[1..])
      case Separator => Ended(word) + RawWords(a, [], s[1..])
  }

  lemma {:induction false} SqueezeAppends(a: Alphabet, out: string, s: string, previousSpace: bool)
    ensures Squeeze(a, out, s, previousSpace) == out + Squeeze(a, [], s, previousSpace)
    decreases s
  {
    if s == [] {
      assert out + [] == out;
    } else {
      var head := if a.kind(s[0]) == Kept then [s[0]] else if a.kind(s[0]) == Separator && !previousSpace then [' '] else [];
      var flag := if a.kind(s[0]) == Dropped then previousSpace else a.kind(s[0]) == Separator;
      SqueezeAppends(a, out + head, s[1..], flag);
      SqueezeAppends(a, head, s[1..], flag);
      assert out + head + Squeeze(a, [], s[1..], flag) == out + (head + Squeeze(a, [], s[1..], flag));
      assert [] + head == head && out + [] == out;
    }
  }

  lemma {:induction false} SqueezeKeepsWords(a: Alphabet, word: string, s: string, previousSpace: bool)
    requires Sane(a) && (previousSpace ==> word == [])
    ensures Words(word, Squeeze(a, [], s, previousSpace)) == RawWords(a, word, s)
    decreases s
  {
    if s != [] {
      match a.kind(s[0])
      case Dropped => SqueezeKeepsWords(a, word, s[1..], previousSpace);
      case Kept =>
        assert a.kind(' ') == Separator && [] + [s[0]] == [s[0]];
        SqueezeAppends(a, [s[0]], s[1..], false);
        assert ([s[0]] + Squeeze(a, [], s[1..], false))[1..] == Squeeze(a, [], s[1..], false);
        SqueezeKeepsWords(a, word + [s[0]], s[1..], false);
      case Separator =>
        var rest := Squeeze(a, [], s[1..], true);
        SqueezeKeepsWords(a, [], s[1..], true);
        if previousSpace {
          assert Ended(word) + RawWords(a, [], s[1..]) == RawWords(a, [], s[1..]);
        } else {
          SqueezeAppends(a, [' '], s[1..], true);
          assert [] + [' '] == [' '] && ([' '] + rest)[1..] == rest;
        }
    }
  }

  lemma {:induction false} LastSpaceEndsNoWord(word: string, s: string)
    ensures Words(word, s + [' ']) == Words(word, s)
    decreases s
  {
    if s == [] {
      assert ([' '])[1..] == [] && s + [' '] == [' '];
      assert Ended(word) + [] == Ended(word);
    } else {
      assert (s + [' '])[1..] == s[1..] + [' '];
      LastSpaceEndsNoWord(if s[0] == ' ' then [] else word + [s[0]], s[1..]);
    }
  }

  /** Normalising keeps the words, letter for letter and in order. */
  lemma NormalizedKeepsWords(a: Alphabet, value: string)
    requires Sane(a) && |Trim(a, value)| <= MAX_RUNES
    ensures Words([], Normalized(a, value)) == RawWords(a, [], Fold(a, Trim(a, value)))
  {
    var v := Trim(a, value);
    if v != [] {
      var f := Fold(a, v);
      var s := Squeeze(a, [], f, true);
      FoldIsFolded(a, v);
      SqueezeIsTidy(a, [], f, true);
      SqueezeKeepsWords(a, [], f, true);
      TrimTidy(a, s);
      if s != [] && s[|s| - 1] == ' ' {
        var t := s[..|s| - 1];
        TrimsOneSpace(a, s);
        LastSpaceEndsNoWord([], t);
        assert t + [' '] == s;
      } else {
        TrimKeepsTrimmed(a, s);
      }
    }
  }

  // ---------- a value that is no fixed point ----------

  /** Hangul syllables in part: 각 (U+AC01) decomposes into three letters. */
  const HANGUL := Alphabet(
    (c: char) => if c == '\U{AC01}' then ['\U{1100}', '\U{1161}', '\U{11A8}'] else [c],
    (c: char) => if c == ' ' then Separator else Kept,
    (c: char) => c == ' ')

  function Repeat(c: char, n: nat): string {
    if n == 0 then [] else [c] + Repeat(c, n - 1)
  }

  lemma {:induction false} HangulTriples(n: nat)
    ensures |Repeat('\U{AC01}', n)| == n && |Fold(HANGUL, Repeat('\U{AC01}', n))| == 3 * n
    ensures forall i :: 0 <= i < 3 * n ==> Fold(HANGUL, Repeat('\U{AC01}', n))[i] != ' '
    ensures forall i :: 0 <= i < n ==> Repeat('\U{AC01}', n)[i] == '\U{AC01}'
  {
    if n > 0 {
      HangulTriples(n - 1);
      assert Repeat('\U{AC01}', n)[1..] == Repeat('\U{AC01}', n - 1);
      assert HANGUL.fold('\U{AC01}') == ['\U{1100}', '\U{1161}', '\U{11A8}'];
    }
  }

  lemma {:induction false} SqueezeKeepsLetters(out: string, s: string, previousSpace: bool)
    requires forall i :: 0 <= i < |s| ==> s[i] != ' '
    ensures Squeeze(HANGUL, out, s, previousSpace) == out + s
    decreases s
  {
    if s == [] {
      assert out + s == out;
    } else {
      SqueezeKeepsLetters(out + [s[0]], s[1..], false);
      assert out + [s[0]] + s[1..] == out + s;
    }
  }

  lemma HangulIsSane()
    ensures Sane(HANGUL)
  {
    forall c, i | 0 <= i < |HANGUL.fold(c)| && HANGUL.kind(HANGUL.fold(c)[i]) == Kept
      ensures HANGUL.fold(HANGUL.fold(c)[i]) == [HANGUL.fold(c)[i]]
    {
      assert HANGUL.fold(c)[i] != '\U{AC01}';
    }
  }

  lemma {:induction false} SyllablesNormalize(n: nat)
    requires 0 < n <= MAX_RUNES
    ensures |Normalized(HANGUL, Repeat('\U{AC01}', n))| == 3 * n
  {
    var v := Repeat('\U{AC01}', n);
    HangulTriples(n);
    assert Trim(HANGUL, v) == v;
    var f := Fold(HANGUL, v);
    SqueezeKeepsLetters([], f, true);
    assert [] + f == f && Trim(HANGUL, f) == f;
  }

  /** 171 such syllables come out as 513 letters, and those normalise to nothing. */
  lemma NotAlwaysAFixedPoint()
    ensures exists value ::
              |Normalized(HANGUL, value)| == 513 && Normalized(HANGUL, Normalized(HANGUL, value)) == []
  {
    var n := 171;
    var value := Repeat('\U{AC01}', n);
    SyllablesNormalize(n);
    HangulIsSane();
    NormalizedIsTidy(HANGUL, value);
    TrimKeepsTrimmed(HANGUL, Normalized(HANGUL, value));
  }
}
