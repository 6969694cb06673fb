/**
 The byte loop that collects the literal strings of a PDF
 (backend/internal/processor/extractor.go, `extractPDFText`): a subset of
 section 7.3.4.2 of ISO 32000-1, without octal escapes and line continuations.
 The outer loop's own increment also skips the byte after each closing
 parenthesis.
 */
module PdfLiterals {
  type Byte = b: int | 0 <= b < 256 witness 0

  const OPEN: Byte := 40
  const CLOSE: Byte := 41
  const BACKSLASH: Byte := 92
  const NEWLINE: Byte := 10

  function Unescape(b: Byte): Byte {
    if b == 110 then 10 else if b == 114 then 13 else if b == 116 then 9 else b
  }

  predicate Kept(b: Byte) {
    b == 10 || b == 13 || 32 <= b <= 126 || b >= 128
  }

  // ---------- what the loop computes ----------

  /** Reads inside a literal at the given depth: what is written after `out`, and the bytes after the closing parenthesis. */
  function Literal(out: seq<Byte>, s: seq<Byte>, depth: nat): (r: (seq<Byte>, seq<Byte>))
    requires depth > 0
    ensures |r.0| + |r.1| <= |out| + |s| && |r.1| <= |s|
    decreases |s|
  {
    if s == [] then (out, [])
    else if s[0] == BACKSLASH && |s| > 1 then Literal(out + [Unescape(s[1])], s[2..], depth)
    else if s[0] == OPEN then Literal(out + [OPEN], s[1..], depth + 1)
    else if s[0] == CLOSE then if depth == 1 then (out, s[1..]) else Literal(out + [CLOSE], s[1..], depth - 1)
    else Literal(if Kept(s[0]) then out + [s[0]] else out, s[1..], depth)
  }

  function Skip(s: seq<Byte>): seq<Byte> {
    if s == [] then [] else s[1..]
  }

  function Scan(out: seq<Byte>, s: seq<Byte>): (r: seq<Byte>)
    ensures |r| <= |out| + |s|
    decreases |s|
  {
    if s == [] then out
    else if s[0] != OPEN then Scan(out, s[1..])
    else Scan(Literal(out, s[1..], 1).0 + [NEWLINE], Skip(Literal(out, s[1..], 1).1))
  }

  /** The same for the rest of a text, told by the byte it starts with. */
  lemma LiteralFrom(out: seq<Byte>, s: seq<Byte>, index: nat, depth: nat)
    requires index < |s| && depth > 0
    ensures var c, rest := s[index], s[index + 1..];
            Literal(out, s[index..], depth) ==
            if c == BACKSLASH && index + 1 < |s| then Literal(out + [Unescape(s[index + 1])], s[index + 2..], depth)
            else if c == OPEN then Literal(out + [OPEN], rest, depth + 1)
            else if c == CLOSE then if depth == 1 then (out, rest) else Literal(out + [CLOSE], rest, depth - 1)
            else Literal(if Kept(c) then out + [c] else out, rest, depth)
  {
    assert s[index..][1..] == s[index + 1..];
    if index + 1 < |s| { assert s[index..][2..] == s[index + 2..] && s[index..][1] == s[index + 1]; }
  }

  /** `Literal` by position: what is written, and where the text goes on. */
  function LiteralAt(out: seq<Byte>, s: seq<Byte>, index: nat, depth: nat): (r: (seq<Byte>, nat))
    requires depth > 0 && index <= |s|
    ensures index <= r.1 <= |s|
    decreases |s| - index
  {
    if index == |s| then (out, index)
    else if s[index] == BACKSLASH && index + 1 < |s| then LiteralAt(out + [Unescape(s[index + 1])], s, index + 2, depth)
    else if s[index] == OPEN then LiteralAt(out + [OPEN], s, index + 1, depth + 1)
    else if s[index] == CLOSE then if depth == 1 then (out, index + 1) else LiteralAt(out + [CLOSE], s, index + 1, depth - 1)
    else LiteralAt(if Kept(s[index]) then out + [s[index]] else out, s, index + 1, depth)
  }

  lemma {:induction false} LiteralAtIsLiteral(out: seq<Byte>, s: seq<Byte>, index: nat, depth: nat)
    requires depth > 0 && index <= |s|
    ensures var r := LiteralAt(out, s, index, depth); Literal(out, s[index..], depth) == (r.0, s[r.1..])
    decreases |s| - index
  {
    if index < |s| {
      LiteralFrom(out, s, index, depth);
      var c := s[index];
      if c == BACKSLASH && index + 1 < |s| {
        LiteralAtIsLiteral(out + [Unescape(s[index + 1])], s, index + 2, depth);
      } else if c == OPEN {
        LiteralAtIsLiteral(out + [OPEN], s, index + 1, depth + 1);
      } else if c == CLOSE {
        if depth > 1 { LiteralAtIsLiteral(out + [CLOSE], s, index + 1, depth - 1); }
      } else {
        LiteralAtIsLiteral(if Kept(c) then out + [c] else out, s, index + 1, depth);
      }
    }
  }

  /** `Scan` by position. */
  function ScanAt(out: seq<Byte>, s: seq<Byte>, index: nat): seq<Byte>
    decreases |s| - index
  {
    if index >= |s| then out
    else if s[index] != OPEN then ScanAt(out, s, index + 1)
    else
      var r := LiteralAt(out, s, index + 1, 1);
      ScanAt(r.0 + [NEWLINE], s, r.1 + 1)
  }

  lemma {:induction false} ScanAtIsScan(out: seq<Byte>, s: seq<Byte>, index: nat)
    requires index <= |s|
    ensures ScanAt(out, s, index) == Scan(out, s[index..])
    decreases |s| - index
  {
    if index < |s| {
      assert s[index..][1..] == s[index + 1..];
      if s[index] != OPEN {
        ScanAtIsScan(out, s, index + 1);
      } else {
        var r := LiteralAt(out, s, index + 1, 1);
        LiteralAtIsLiteral(out, s, index + 1, 1);
        if r.1 < |s| {
          assert Skip(s[r.1..]) == s[r.1 + 1..];
          ScanAtIsScan(r.0 + [NEWLINE], s, r.1 + 1);
        }
      }
    }
  }

  /** It writes no more bytes than it reads. */
  method ExtractLiterals(content: seq<Byte>) returns (out: seq<Byte>)
    ensures out == Scan([], content) && |out| <= |content|
  {
    out := [];
    var index := 0;
    ScanAtIsScan([], content, 0);
    assert content[0..] == content;
    while index < |content|
      invariant ScanAt(out, content, index) == ScanAt([], content, 0)
      decreases |content| - index
    {
      if content[index] != OPEN {
        index := index + 1;
        continue;
      }
      ghost var whole := LiteralAt(out, content, index + 1, 1);
      index := index + 1;
      var depth := 1;
      while index < |content| && depth > 0
        invariant index <= |content|
        invariant whole == if depth > 0 then LiteralAt(out, content, index, depth) else (out, index)
        decreases |content| - index
      {
        var character := content[index];
        if character == BACKSLASH && index + 1 < |content| {
          index := index + 1;
          out := out + [Unescape(content[index])];
          index := index + 1;
          continue;
        }
        if character == OPEN {
          depth := depth + 1;
          out := out + [character];
        } else if character == CLOSE {
          depth := depth - 1;
          if depth > 0 {
            out := out + [character];
          }
        } else if Kept(character) {
          out := out + [character];
        }
        index := index + 1;
      }
      out := out + [NEWLINE];
      index := index + 1;
    }
  }

  // ---------- documents ----------

  datatype Token = Raw(b: Byte) | Escaped(b: Byte) | Open | Close

  /** A separator byte, a literal's opening parenthesis, a piece of its contents, its closing parenthesis. */
  datatype Atom = Sep(b: Byte) | Begin | Piece(t: Token) | End

  function TokenBytes(t: Token): seq<Byte> {
    match t
    case Raw(b) => [b]
    case Escaped(b) => [BACKSLASH, b]
    case Open => [OPEN]
    case Close => [CLOSE]
  }

  function TokenValue(t: Token): seq<Byte> {
    match t
    case Raw(b) => if Kept(b) then [b] else []
    case Escaped(b) => [Unescape(b)]
    case Open => [OPEN]
    case Close => [CLOSE]
  }

  function AtomBytes(a: Atom): seq<Byte> {
    match a
    case Sep(b) => [b]
    case Begin => [OPEN]
    case Piece(t) => TokenBytes(t)
    case End => [CLOSE]
  }

  function AtomValue(a: Atom): seq<Byte> {
    match a
    case Sep(_) => []
    case Begin => []
    case Piece(t) => TokenValue(t)
    case End => [NEWLINE]
  }

  function Bytes(atoms: seq<Atom>): seq<Byte> {
    if atoms == [] then [] else AtomBytes(atoms[0]) + Bytes(atoms[1..])
  }

  /** Each literal's contents and a newline, after `out`. */
  function Value(out: seq<Byte>, atoms: seq<Atom>): seq<Byte>
    decreases atoms
  {
    if atoms == [] then out else Value(out + AtomValue(atoms[0]), atoms[1..])
  }

  /** Separators hold no opening parenthesis; literals end, and parentheses within them that are not escaped match. */
  predicate WellFormed(atoms: seq<Atom>, inside: bool, nest: nat) {
    if atoms == [] then !inside
    else
      match atoms[0]
      case Sep(b) => !inside && b != OPEN && WellFormed(atoms[1..], false, 0)
      case Begin => !inside && WellFormed(atoms[1..], true, 0)
      case End => inside && nest == 0 && WellFormed(atoms[1..], false, 0)
      case Piece(t) =>
        && inside
        && (match t
            case Raw(b) => b != OPEN && b != CLOSE && b != BACKSLASH && WellFormed(atoms[1..], true, nest)
            case Escaped(_) => WellFormed(atoms[1..], true, nest)
            case Open => WellFormed(atoms[1..], true, nest + 1)
            case Close => nest > 0 && WellFormed(atoms[1..], true, nest - 1))
  }

  /** No literal begins right after another ends. */
  predicate Separated(atoms: seq<Atom>) {
    forall i :: 0 <= i < |atoms| - 1 ==> !(atoms[i].End? && atoms[i + 1].Begin?)
  }

  lemma StartsWithEscape(b: Byte, rest: seq<Byte>)
    ensures ([BACKSLASH, b] + rest)[2..] == rest && ([BACKSLASH, b] + rest)[0] == BACKSLASH && ([BACKSLASH, b] + rest)[1] == b
  {
  }

  /** The reader's step over one piece. */
  lemma LiteralStep(out: seq<Byte>, t: Token, rest: seq<Byte>, depth: nat)
    requires depth > 0 && (t.Raw? ==> t.b != OPEN && t.b != CLOSE && t.b != BACKSLASH) && (t.Close? ==> depth > 1)
    ensures Literal(out, TokenBytes(t) + rest, depth) == Literal(out + TokenValue(t), rest, Deeper(t, depth))
  {
    assert out + [] == out;
    if t.Escaped? {
      StartsWithEscape(t.b, rest);
    } else {
      assert (TokenBytes(t) + rest)[1..] == rest;
    }
  }

  function Deeper(t: Token, depth: nat): nat
    requires t.Close? ==> depth > 0
  {
    if t.Open? then depth + 1 else if t.Close? then depth - 1 else depth
  }

  // ---------- the round trip ----------

  /** Where the literal that is open ends: the atoms after its closing parenthesis. */
  function AfterLiteral(atoms: seq<Atom>, nest: nat): (rest: seq<Atom>)
    requires WellFormed(atoms, true, nest)
    ensures |rest| < |atoms| && WellFormed(rest, false, 0)
    decreases |atoms|
  {
    if atoms[0].End? then atoms[1..] else AfterLiteral(atoms[1..], Deeper(atoms[0].t, nest))
  }

  /** In step with the document, reading a literal yields its contents and stops right after its end. */
  lemma {:induction false} ReadsLiteral(out: seq<Byte>, atoms: seq<Atom>, nest: nat)
    requires WellFormed(atoms, true, nest)
    ensures var r, rest := Literal(out, Bytes(atoms), nest + 1), AfterLiteral(atoms, nest);
            r.1 == Bytes(rest) && Value(r.0 + [NEWLINE], rest) == Value(out, atoms)
    decreases |atoms|
  {
    var tail := atoms[1..];
    if atoms[0].End? {
      assert Bytes(atoms)[1..] == Bytes(tail);
    } else {
      LiteralStep(out, atoms[0].t, Bytes(tail), nest + 1);
      ReadsLiteral(out + TokenValue(atoms[0].t), tail, Deeper(atoms[0].t, nest));
    }
  }

  /** The literals end at an End; what comes after it is what comes after it in the document. */
  lemma {:induction false} AfterLiteralFollowsEnd(atoms: seq<Atom>, nest: nat)
    requires WellFormed(atoms, true, nest)
    ensures var rest := AfterLiteral(atoms, nest);
            && rest == atoms[|atoms| - |rest|..] && atoms[|atoms| - |rest| - 1] == End
            && forall i :: 0 <= i < |atoms| - |rest| - 1 ==> atoms[i].Piece?
    decreases |atoms|
  {
    if !atoms[0].End? {
      AfterLiteralFollowsEnd(atoms[1..], Deeper(atoms[0].t, nest));
      assert forall i :: 0 < i < |atoms| ==> atoms[i] == atoms[1..][i - 1];
    }
  }

  lemma SeparatedSuffix(atoms: seq<Atom>, k: nat)
    requires k <= |atoms| && Separated(atoms)
    ensures Separated(atoms[k..])
  {
    assert forall i :: 0 <= i < |atoms| - k ==> atoms[k..][i] == atoms[k + i];
  }

  lemma {:induction false} RoundTrip(out: seq<Byte>, atoms: seq<Atom>)
    requires WellFormed(atoms, false, 0) && Separated(atoms)
    ensures Scan(out, Bytes(atoms)) == Value(out, atoms)
    decreases |atoms|
  {
    if atoms != [] {
      var tail := atoms[1..];
      assert Bytes(atoms)[1..] == Bytes(tail) && out + [] == out;
      SeparatedSuffix(atoms, 1);
      if atoms[0].Sep? {
        RoundTrip(out, tail);
      } else {
        RoundTripInLiteral(out, tail);
      }
    }
  }

  lemma {:induction false} RoundTripInLiteral(out: seq<Byte>, tail: seq<Atom>)
    requires WellFormed(tail, true, 0) && Separated(tail)
    ensures var r := Literal(out, Bytes(tail), 1); Scan(r.0 + [NEWLINE], Skip(r.1)) == Value(out, tail)
    decreases |tail|, 1
  {
    var rest, r := AfterLiteral(tail, 0), Literal(out, Bytes(tail), 1);
    ReadsLiteral(out, tail, 0);
    AfterLiteralFollowsEnd(tail, 0);
    AfterSeparator(r.0 + [NEWLINE], tail, rest);
  }

  /** The byte skipped after a literal is a separator's. */
  lemma AfterSeparator(out: seq<Byte>, tail: seq<Atom>, rest: seq<Atom>)
    requires |rest| < |tail| && rest == tail[|tail| - |rest|..] && tail[|tail| - |rest| - 1] == End
    requires Separated(tail) && WellFormed(rest, false, 0)
    ensures Scan(out, Skip(Bytes(rest))) == Value(out, rest)
    decreases |rest|, 0
  {
    if rest != [] {
      assert tail[|tail| - |rest|] == rest[0];
      assert !rest[0].Begin?;
      assert Bytes(rest)[1..] == Bytes(rest[1..]) && out + [] == out;
      SeparatedSuffix(tail, |tail| - |rest| + 1);
      assert tail[|tail| - |rest| + 1..] == rest[1..];
      RoundTrip(out, rest[1..]);
    }
  }

  // ---------- and only then ----------

  function Weight(atoms: seq<Atom>): nat {
    if atoms == [] then 0 else |AtomValue(atoms[0])| + Weight(atoms[1..])
  }

  lemma {:induction false} ValueLength(out: seq<Byte>, atoms: seq<Atom>)
    ensures |Value(out, atoms)| == |out| + Weight(atoms)
    decreases atoms
  {
    if atoms != [] { ValueLength(out + AtomValue(atoms[0]), atoms[1..]); }
  }

  lemma ScanPast(out: seq<Byte>, b: Byte, s: seq<Byte>)
    requires b != OPEN
    ensures Scan(out, [b] + s) == Scan(out, s)
  {
    assert ([b] + s)[1..] == s;
  }

  lemma ScanInto(out: seq<Byte>, s: seq<Byte>)
    ensures var r := Literal(out, s, 1); Scan(out, [OPEN] + s) == Scan(r.0 + [NEWLINE], Skip(r.1))
  {
    assert ([OPEN] + s)[1..] == s;
  }

  lemma {:induction false} PlainPieceBound(out: seq<Byte>, t: Token, tail: seq<Atom>, nest: nat)
    requires WellFormed([Piece(t)] + tail, true, nest)
    ensures |Scan(out, TokenBytes(t) + Bytes(tail))| + 1 <= |out| + |TokenValue(t)| + Weight(tail)
    decreases |tail|, 2
  {
    assert ([Piece(t)] + tail)[1..] == tail;
    match t
    case Raw(b) =>
      ScanPast(out, b, Bytes(tail));
      PlainBound(out, tail, true, nest);
    case Escaped(b) =>
      assert [BACKSLASH, b] + Bytes(tail) == [BACKSLASH] + ([b] + Bytes(tail));
      ScanPast(out, BACKSLASH, [b] + Bytes(tail));
      LooseByte(out, b, tail, nest);
    case Open =>
      ScanInto(out, Bytes(tail));
      ReadBound(out, tail, nest + 1, 1);
    case Close =>
      ScanPast(out, CLOSE, Bytes(tail));
      PlainBound(out, tail, true, nest - 1);
  }

  /** Started outside all literals or, out of step, inside one: in the second case a byte is always lost. */
  lemma {:induction false} PlainBound(out: seq<Byte>, atoms: seq<Atom>, inside: bool, nest: nat)
    requires WellFormed(atoms, inside, nest)
    ensures |Scan(out, Bytes(atoms))| + (if inside then 1 else 0) <= |out| + Weight(atoms)
    decreases |atoms|, 0
  {
    if atoms != [] {
      var tail := atoms[1..];
      match atoms[0]
      case Sep(b) =>
        ScanPast(out, b, Bytes(tail));
        PlainBound(out, tail, false, 0);
      case Begin =>
        ScanInto(out, Bytes(tail));
        ReadBound(out, tail, 0, 1);
      case End =>
        ScanPast(out, CLOSE, Bytes(tail));
        PlainBound(out, tail, false, 0);
      case Piece(t) =>
        assert [Piece(t)] + tail == atoms;
        PlainPieceBound(out, t, tail, nest);
    }
  }

  /** The second byte of an escape, met on its own. */
  lemma {:induction false} LooseByte(out: seq<Byte>, b: Byte, tail: seq<Atom>, nest: nat)
    requires WellFormed(tail, true, nest)
    ensures |Scan(out, [b] + Bytes(tail))| <= |out| + Weight(tail)
    decreases |tail|, 1
  {
    assert ([b] + Bytes(tail))[1..] == Bytes(tail);
    if b == OPEN { ReadBound(out, tail, nest, 1); } else { PlainBound(out, tail, true, nest); }
  }

  /** All atoms but an escape are one byte. */
  lemma TailBytes(atoms: seq<Atom>)
    requires atoms != []
    ensures Skip(Bytes(atoms)) ==
            if atoms[0].Piece? && atoms[0].t.Escaped? then [atoms[0].t.b] + Bytes(atoms[1..]) else Bytes(atoms[1..])
  {
  }

  lemma {:induction false} SkipPieceBound(out: seq<Byte>, atoms: seq<Atom>, nest: nat)
    requires WellFormed(atoms, true, nest) && atoms[0].Piece?
    ensures |Scan(out, Skip(Bytes(atoms)))| + 1 <= |out| + Weight(atoms)
    decreases |atoms|, 0
  {
    var t, tail := atoms[0].t, atoms[1..];
    TailBytes(atoms);
    if t.Escaped? {
      LooseByte(out, t.b, tail, nest);
    } else {
      PlainBound(out, tail, true, Deeper(t, nest));
    }
  }

  lemma {:induction false} SkipBound(out: seq<Byte>, atoms: seq<Atom>, inside: bool, nest: nat)
    requires WellFormed(atoms, inside, nest)
    ensures |Scan(out, Skip(Bytes(atoms)))| + (if inside || (atoms != [] && atoms[0].Begin?) then 1 else 0) <= |out| + Weight(atoms)
    decreases |atoms|, 1
  {
    if atoms != [] {
      if atoms[0].Piece? {
        SkipPieceBound(out, atoms, nest);
      } else {
        TailBytes(atoms);
        PlainBound(out, atoms[1..], atoms[0].Begin?, 0);
      }
    }
  }

  /** Reading from anywhere inside a literal, at its depth or a lower one. */
  lemma {:induction false} ReadBound(out: seq<Byte>, atoms: seq<Atom>, nest: nat, depth: nat)
    requires WellFormed(atoms, true, nest) && 1 <= depth <= nest + 1
    ensures var r := Literal(out, Bytes(atoms), depth); |Scan(r.0 + [NEWLINE], Skip(r.1))| <= |out| + Weight(atoms)
    decreases |atoms|, 0
  {
    var tail := atoms[1..];
    if atoms[0].End? {
      assert Bytes(atoms)[1..] == Bytes(tail);
      SkipBound(out + [NEWLINE], tail, false, 0);
    } else if atoms[0].t.Close? && depth == 1 {
      assert Bytes(atoms)[1..] == Bytes(tail);
      SkipBound(out + [NEWLINE], tail, true, nest - 1);
    } else {
      var t := atoms[0].t;
      LiteralStep(out, t, Bytes(tail), depth);
      ReadBound(out + TokenValue(t), tail, Deeper(t, nest), Deeper(t, depth));
    }
  }

  /** Two literals with nothing between them: something of the second is lost. */
  lemma {:induction false} ClashLoses(out: seq<Byte>, atoms: seq<Atom>)
    requires WellFormed(atoms, false, 0) && !Separated(atoms)
    ensures |Scan(out, Bytes(atoms))| < |out| + Weight(atoms)
    decreases |atoms|
  {
    var tail := atoms[1..];
    assert Bytes(atoms)[1..] == Bytes(tail);
    assert forall i :: 0 <= i < |tail| ==> tail[i] == atoms[i + 1];
    if atoms[0].Sep? {
      ClashLoses(out, tail);
    } else {
      ClashInLiteral(out, tail);
    }
  }

  /** In step, a literal yields as many bytes as its atoms say. */
  lemma LiteralLength(out: seq<Byte>, tail: seq<Atom>)
    requires WellFormed(tail, true, 0)
    ensures var r, rest := Literal(out, Bytes(tail), 1), AfterLiteral(tail, 0);
            r.1 == Bytes(rest) && |r.0| + 1 + Weight(rest) == |out| + Weight(tail)
  {
    var rest, r := AfterLiteral(tail, 0), Literal(out, Bytes(tail), 1);
    ReadsLiteral(out, tail, 0);
    ValueLength(out, tail);
    ValueLength(r.0 + [NEWLINE], rest);
  }

  lemma {:induction false} ClashInLiteral(out: seq<Byte>, tail: seq<Atom>)
    requires WellFormed(tail, true, 0) && !Separated(tail)
    ensures var r := Literal(out, Bytes(tail), 1); |Scan(r.0 + [NEWLINE], Skip(r.1))| < |out| + Weight(tail)
    decreases |tail|
  {
    var rest, r := AfterLiteral(tail, 0), Literal(out, Bytes(tail), 1);
    LiteralLength(out, tail);
    AfterLiteralFollowsEnd(tail, 0);
    ClashIsLater(tail, rest);
    ClashAfter(r.0 + [NEWLINE], rest);
  }

  lemma {:induction false} ClashAfter(out: seq<Byte>, rest: seq<Atom>)
    requires WellFormed(rest, false, 0) && rest != [] && (rest[0].Begin? || !Separated(rest[1..]))
    ensures |Scan(out, Skip(Bytes(rest)))| < |out| + Weight(rest)
    decreases |rest|
  {
    if rest[0].Begin? {
      SkipBound(out, rest, false, 0);
    } else {
      TailBytes(rest);
      ClashLoses(out, rest[1..]);
    }
  }

  lemma ClashIsLater(tail: seq<Atom>, rest: seq<Atom>)
    requires |rest| < |tail| && rest == tail[|tail| - |rest|..] && tail[|tail| - |rest| - 1] == End
    requires forall i :: 0 <= i < |tail| - |rest| - 1 ==> tail[i].Piece?
    requires !Separated(tail) && WellFormed(rest, false, 0)
    ensures rest != [] && (rest[0].Begin? || !Separated(rest[1..]))
  {
    var k := |tail| - |rest|;
    var i :| 0 <= i < |tail| - 1 && tail[i].End? && tail[i + 1].Begin?;
    assert i >= k - 1;
    assert tail[i + 1] == rest[i + 1 - k];
    if i > k {
      assert rest[1..][i - k - 1] == tail[i] && rest[1..][i - k] == tail[i + 1];
    }
  }

  /**
   The text of a document's literals comes back, each followed by a newline,
   exactly when no literal begins right after another ends.
   */
  lemma RoundTripExactlyWhenSeparated(atoms: seq<Atom>)
    requires WellFormed(atoms, false, 0)
    ensures Scan([], Bytes(atoms)) == Value([], atoms) <==> Separated(atoms)
  {
    ValueLength([], atoms);
    if Separated(atoms) { RoundTrip([], atoms); } else { ClashLoses([], atoms); }
  }

  // ---------- writing a string ----------

  /** A writer's choice: parentheses, backslashes and bytes the reader drops are escaped. */
  function Write(b: Byte): Token {
    if b == 10 then Escaped(110)
    else if b == 13 then Escaped(114)
    else if b == 9 then Escaped(116)
    else if b == OPEN || b == CLOSE || b == BACKSLASH || !Kept(b) then Escaped(b)
    else Raw(b)
  }

  function Written(s: seq<Byte>): seq<Atom> {
    if s == [] then [End] else [Piece(Write(s[0]))] + Written(s[1..])
  }

  /** Any bytes at all can be written as a literal and are read back. */
  lemma {:induction false} WrittenReadsBack(out: seq<Byte>, s: seq<Byte>, rest: seq<Atom>)
    requires WellFormed(rest, false, 0)
    ensures WellFormed(Written(s) + rest, true, 0)
    ensures Value(out, Written(s) + rest) == Value(out + s + [NEWLINE], rest)
  {
    WrittenIsWellFormed(s, rest);
    WrittenValue(out, s, rest);
  }

  lemma WrittenHead(s: seq<Byte>, rest: seq<Atom>)
    ensures var atoms := Written(s) + rest;
            if s == [] then atoms != [] && atoms[0] == End && atoms[1..] == rest
            else atoms != [] && atoms[0] == Piece(Write(s[0])) && atoms[1..] == Written(s[1..]) + rest
  {
  }

  lemma {:induction false} WrittenIsWellFormed(s: seq<Byte>, rest: seq<Atom>)
    requires WellFormed(rest, false, 0)
    ensures WellFormed(Written(s) + rest, true, 0)
    decreases s
  {
    WrittenHead(s, rest);
    if s != [] { WrittenIsWellFormed(s[1..], rest); }
  }

  lemma {:induction false} WrittenValue(out: seq<Byte>, s: seq<Byte>, rest: seq<Atom>)
    ensures Value(out, Written(s) + rest) == Value(out + s + [NEWLINE], rest)
    decreases s
  {
    WrittenHead(s, rest);
    if s == [] {
      assert out + s == out;
    } else {
      WrittenValue(out + [s[0]], s[1..], rest);
      assert TokenValue(Write(s[0])) == [s[0]];
      assert out + [s[0]] + s[1..] == out + s;
    }
  }

  function Separators(s: seq<Byte>): seq<Atom> {
    seq(|s|, i requires 0 <= i < |s| => Sep(s[i]))
  }

  /** Literals of the given strings, each followed by its separator. */
  function Document(strings: seq<seq<Byte>>, separators: seq<seq<Byte>>): seq<Atom>
    requires |strings| == |separators|
  {
    if strings == [] then []
    else [Begin] + (Written(strings[0]) + (Separators(separators[0]) + Document(strings[1..], separators[1..])))
  }

  function Lines(out: seq<Byte>, strings: seq<seq<Byte>>): seq<Byte>
    decreases strings
  {
    if strings == [] then out else Lines(out + strings[0] + [NEWLINE], strings[1..])
  }

  lemma {:induction false} SeparatorsPass(out: seq<Byte>, s: seq<Byte>, rest: seq<Atom>)
    requires OPEN !in s && WellFormed(rest, false, 0)
    ensures WellFormed(Separators(s) + rest, false, 0) && Value(out, Separators(s) + rest) == Value(out, rest)
    decreases s
  {
    if s == [] {
      assert Separators(s) + rest == rest;
    } else {
      assert (Separators(s) + rest)[1..] == Separators(s[1..]) + rest;
      assert out + [] == out;
      SeparatorsPass(out, s[1..], rest);
    }
  }

  lemma SeparatedJoin(a: seq<Atom>, b: seq<Atom>)
    requires Separated(a) && Separated(b) && (a != [] && b != [] ==> !(a[|a| - 1].End? && b[0].Begin?))
    ensures Separated(a + b)
  {
  }

  lemma {:induction false} WrittenShape(s: seq<Byte>)
    ensures Written(s) != [] && forall i :: 0 <= i < |Written(s)| ==> !Written(s)[i].Begin?
    decreases s
  {
    if s != [] { WrittenShape(s[1..]); }
  }

  lemma {:induction false} DocumentShape(out: seq<Byte>, strings: seq<seq<Byte>>, separators: seq<seq<Byte>>)
    requires |strings| == |separators|
    requires forall i :: 0 <= i < |separators| ==> separators[i] != [] && OPEN !in separators[i]
    ensures var atoms := Document(strings, separators);
            WellFormed(atoms, false, 0) && Separated(atoms) && Value(out, atoms) == Lines(out, strings)
    decreases |strings|
  {
    if strings != [] {
      var rest := Document(strings[1..], separators[1..]);
      var gap := Separators(separators[0]) + rest;
      var body := Written(strings[0]) + gap;
      DocumentShape(out + strings[0] + [NEWLINE], strings[1..], separators[1..]);
      SeparatorsPass(out + strings[0] + [NEWLINE], separators[0], rest);
      WrittenReadsBack(out, strings[0], gap);
      WrittenShape(strings[0]);
      SeparatedJoin(Separators(separators[0]), rest);
      SeparatedJoin(Written(strings[0]), gap);
      SeparatedJoin([Begin], body);
      assert ([Begin] + body)[1..] == body && out + [] == out;
    }
  }

  /** Any strings, written as literals with something other than an opening parenthesis between them, come back line by line. */
  lemma {:induction false} StringsComeBack(strings: seq<seq<Byte>>, separators: seq<seq<Byte>>)
    requires |strings| == |separators|
    requires forall i :: 0 <= i < |separators| ==> separators[i] != [] && OPEN !in separators[i]
    ensures Scan([], Bytes(Document(strings, separators))) == Lines([], strings)
  {
    DocumentShape([], strings, separators);
    RoundTrip([], Document(strings, separators));
  }
}
