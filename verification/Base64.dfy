/**
 Strict base64 (src/modules/disputes/content-hash.ts), with the codec of RFC 4648 it relies on:
 the alphabet and padding of section 4, and the canonical pad bits of section 3.5.
 */
module Base64 {
  import opened Basics

  type Byte = b: int | 0 <= b < 256

  predicate InAlphabet(c: char) {
    'A' <= c <= 'Z' || 'a' <= c <= 'z' || '0' <= c <= '9' || c == '+' || c == '/'
  }

  /** Table 1 of RFC 4648, read from right to left. */
  function Sextet(c: char): (n: nat)
    requires InAlphabet(c)
    ensures n < 64
  {
    if 'A' <= c <= 'Z' then c as int - 'A' as int
    else if 'a' <= c <= 'z' then c as int - 'a' as int + 26
    else if '0' <= c <= '9' then c as int - '0' as int + 52
    else if c == '+' then 62
    else 63
  }

  /** Table 1 of RFC 4648, read from left to right. */
  function Symbol(n: nat): (c: char)
    requires n < 64
    ensures InAlphabet(c) && Sextet(c) == n
  {
    if n < 26 then ('A' as int + n) as char
    else if n < 52 then ('a' as int + n - 26) as char
    else if n < 62 then ('0' as int + n - 52) as char
    else if n == 62 then '+'
    else '/'
  }

  /** Table 1 of RFC 4648, symbol by symbol. */
  const ALPHABET: string := "ABCDEFGHIJKLMNOPQRSTUVWXYZabcdefghijklmnopqrstuvwxyz0123456789+/"

  const UPPER: string := "ABCDEFGHIJKLMNOPQRSTUVWXYZ"
  const LOWER: string := "abcdefghijklmnopqrstuvwxyz"
  const DIGITS: string := "0123456789"

  lemma UpperPart(i: nat)
    requires i < 26
    ensures ALPHABET[i] == UPPER[i]
  {
  }

  lemma LowerPart(i: nat)
    requires i < 26
    ensures ALPHABET[26 + i] == LOWER[i]
  {
  }

  lemma DigitPart(i: nat)
    requires i < 10
    ensures ALPHABET[52 + i] == DIGITS[i]
  {
  }

  lemma LettersFollow(i: nat)
    requires i < 26
    ensures UPPER[i] as int == 'A' as int + i && LOWER[i] as int == 'a' as int + i
  {
  }

  lemma DigitsFollow(i: nat)
    requires i < 10
    ensures DIGITS[i] as int == '0' as int + i
  {
  }

  /** Each six-bit value and its symbol are those of the table, and no other character is a symbol. */
  lemma SymbolsAreTheTable(n: nat, c: char)
    requires n < 64
    ensures |ALPHABET| == 64 && Symbol(n) == ALPHABET[n]
    ensures InAlphabet(c) <==> c in ALPHABET
    ensures InAlphabet(c) ==> ALPHABET[Sextet(c)] == c
  {
    SymbolInTable(n);
    if InAlphabet(c) {
      SymbolInTable(Sextet(c));
      assert Symbol(Sextet(c)) == c;
    }
    if c in ALPHABET {
      var k :| 0 <= k < 64 && ALPHABET[k] == c;
      SymbolInTable(k);
    }
  }

  lemma SymbolInTable(n: nat)
    requires n < 64
    ensures |ALPHABET| == 64 && Symbol(n) == ALPHABET[n]
  {
    if n < 26 {
      UpperPart(n);
      LettersFollow(n);
    } else if n < 52 {
      LowerPart(n - 26);
      LettersFollow(n - 26);
    } else if n < 62 {
      DigitPart(n - 52);
      DigitsFollow(n - 52);
    }
  }

  /** Section 4: 24 input bits as four symbols. */
  function EncodeTriple(a: Byte, b: Byte, c: Byte): (q: string)
    ensures |q| == 4 && Quads(q)
  {
    [Symbol(a / 4), Symbol(a % 4 * 16 + b / 16), Symbol(b % 16 * 4 + c / 64), Symbol(c % 64)]
  }

  /** The last one or two bytes, filled up with zero bits and `=`. */
  function EncodeRest(b: seq<Byte>): (q: string)
    requires 0 < |b| < 3
    ensures |q| == 4
  {
    if |b| == 1 then [Symbol(b[0] / 4), Symbol(b[0] % 4 * 16), '=', '=']
    else [Symbol(b[0] / 4), Symbol(b[0] % 4 * 16 + b[1] / 16), Symbol(b[1] % 16 * 4), '=']
  }

  function Encode(b: seq<Byte>): string {
    if b == [] then ""
    else if |b| < 3 then EncodeRest(b)
    else EncodeTriple(b[0], b[1], b[2]) + Encode(b[3..])
  }

  /** The run of `=` at the end, up to two. */
  function Pads(s: string): (k: nat)
    ensures k <= 2 && k <= |s|
    ensures forall i :: |s| - k <= i < |s| ==> s[i] == '='
  {
    if s == [] || s[|s| - 1] != '=' then 0
    else if |s| == 1 || s[|s| - 2] != '=' then 1
    else 2
  }

  /** What the pattern of content-hash.ts:6 matches: symbols, then at most two `=`. */
  predicate MatchesPattern(s: string) {
    forall i :: 0 <= i < |s| - Pads(s) ==> InAlphabet(s[i])
  }

  predicate WellShaped(s: string) { |s| % 4 == 0 && MatchesPattern(s) }

  /** Full quads of symbols. */
  predicate Quads(s: string) { |s| % 4 == 0 && forall i :: 0 <= i < |s| ==> InAlphabet(s[i]) }

  function Join(w: nat, x: nat, y: nat, z: nat): (b: seq<Byte>)
    requires w < 64 && x < 64 && y < 64 && z < 64
    ensures |b| == 3
  {
    [w * 4 + x / 16, x % 16 * 16 + y / 4, y % 4 * 64 + z]
  }

  function DecodeQuad(q: string): (b: seq<Byte>)
    requires |q| == 4 && Quads(q)
    ensures |b| == 3
  {
    Join(Sextet(q[0]), Sextet(q[1]), Sextet(q[2]), Sextet(q[3]))
  }

  /** A last quad with one or two `=`: the bits its last symbol has left over are dropped. */
  function DecodeRest(q: string): (b: seq<Byte>)
    requires |q| == 4 && WellShaped(q) && Pads(q) > 0
    ensures |b| == 3 - Pads(q)
  {
    var w, x := Sextet(q[0]), Sextet(q[1]);
    if Pads(q) == 2 then [w * 4 + x / 16] else [w * 4 + x / 16, x % 16 * 16 + Sextet(q[2]) / 4]
  }

  /** The lenient decoder, on a string of the right shape. */
  function Decode(s: string): seq<Byte>
    requires WellShaped(s)
  {
    if s == "" then []
    else if |s| == 4 && Pads(s) > 0 then DecodeRest(s)
    else
      FirstQuad(s);
      DecodeQuad(s[..4]) + Decode(s[4..])
  }

  lemma FirstQuad(s: string)
    requires WellShaped(s) && |s| >= 4 && (|s| > 4 || Pads(s) == 0)
    ensures Quads(s[..4]) && WellShaped(s[4..]) && Pads(s[4..]) == Pads(s)
  {
    var t := s[4..];
    assert forall i :: 0 <= i < |t| ==> t[i] == s[i + 4];
  }

  function DecodeStrict(s: string): Option<seq<Byte>> {
    if s == "" || |s| % 4 != 0 || !MatchesPattern(s) then None
    else
      var decoded := Decode(s);
      if Encode(decoded) == s then Some(decoded) else None
  }

  // ---------------------------------------------------------------- bit groups

  /** Four symbols and the three bytes they decode to are the same number, read in sixes and in eights. */
  lemma QuadIsOneNumber(q: string)
    requires |q| == 4 && forall i :: 0 <= i < 4 ==> q[i] in ALPHABET
    ensures WellShaped(q) && |Decode(q)| == 3
    ensures var w, x, y, z := Sextet(q[0]), Sextet(q[1]), Sextet(q[2]), Sextet(q[3]);
            var b := Decode(q);
            ((w * 64 + x) * 64 + y) * 64 + z == (b[0] as int * 256 + b[1]) * 256 + b[2]
  {
    forall i | 0 <= i < 4 ensures InAlphabet(q[i]) {
      SymbolsAreTheTable(0, q[i]);
    }
    assert q[..4] == q && q[4..] == "" && Decode("") == [];
  }

  /** A last quad with one or two `=`: its symbols' bits from the left, as many as make whole bytes. */
  lemma RestIsLeadingBits(q: string)
    requires |q| == 4 && WellShaped(q) && Pads(q) > 0
    ensures var b, w, x := Decode(q), Sextet(q[0]), Sextet(q[1]);
            if Pads(q) == 2 then b == [(w * 64 + x) / 16]
            else |b| == 2 && b[0] as int * 256 + b[1] == ((w * 64 + x) * 64 + Sextet(q[2])) / 4
  {
  }

  // ------------------------------------------------------------ exact inverse

  lemma {:induction false} EncodingIsWellShaped(b: seq<Byte>)
    ensures WellShaped(Encode(b))
    ensures b == [] <==> Encode(b) == ""
    decreases |b|
  {
    if b == [] {
    } else if |b| < 3 {
      RestIsWellShaped(b);
    } else {
      EncodingIsWellShaped(b[3..]);
      QuadInFront(EncodeTriple(b[0], b[1], b[2]), Encode(b[3..]));
      assert Encode(b) == EncodeTriple(b[0], b[1], b[2]) + Encode(b[3..]);
    }
  }

  lemma QuadInFront(q: string, s: string)
    requires |q| == 4 && Quads(q) && WellShaped(s)
    ensures WellShaped(q + s) && Pads(q + s) == Pads(s)
    ensures (q + s)[..4] == q && (q + s)[4..] == s
  {
    var t := q + s;
    assert forall i :: 4 <= i < |t| ==> t[i] == s[i - 4];
  }

  lemma DecodeAfterQuad(q: string, s: string)
    requires |q| == 4 && Quads(q) && WellShaped(s)
    ensures WellShaped(q + s) && Decode(q + s) == DecodeQuad(q) + Decode(s)
  {
    QuadInFront(q, s);
  }

  lemma EncodeAfterTriple(t: seq<Byte>, b: seq<Byte>)
    requires |t| == 3
    ensures Encode(t + b) == EncodeTriple(t[0], t[1], t[2]) + Encode(b)
  {
    assert (t + b)[3..] == b;
  }

  lemma {:induction false} DecodeEncode(b: seq<Byte>)
    ensures WellShaped(Encode(b)) && Decode(Encode(b)) == b
    decreases |b|
  {
    if b == [] {
    } else if |b| < 3 {
      RestOfRest(b);
    } else {
      var t, rest := b[..3], b[3..];
      assert b == t + rest;
      DecodeEncode(rest);
      EncodeAfterTriple(t, rest);
      DecodeAfterQuad(EncodeTriple(t[0], t[1], t[2]), Encode(rest));
      QuadOfTriple(t[0], t[1], t[2]);
      assert t == [t[0], t[1], t[2]];
    }
  }

  lemma SplitAndJoin(a: Byte, b: Byte, c: Byte)
    ensures var x, y := a % 4 * 16 + b / 16, b % 16 * 4 + c / 64;
            a / 4 * 4 + x / 16 == a && x % 16 * 16 + y / 4 == b && y % 4 * 64 + c % 64 == c
  {
    var a0, b1, b0, c1 := a % 4, b / 16, b % 16, c / 64;
    assert (a0 * 16 + b1) / 16 == a0 && (a0 * 16 + b1) % 16 == b1;
    assert (b0 * 4 + c1) / 4 == b0 && (b0 * 4 + c1) % 4 == c1;
  }

  lemma QuadOfTriple(a: Byte, b: Byte, c: Byte)
    ensures DecodeQuad(EncodeTriple(a, b, c)) == [a, b, c]
  {
    SplitAndJoin(a, b, c);
  }

  lemma RestIsWellShaped(b: seq<Byte>)
    requires 0 < |b| < 3
    ensures WellShaped(EncodeRest(b)) && Pads(EncodeRest(b)) == 3 - |b|
  {
  }

  lemma RestOfRest(b: seq<Byte>)
    requires 0 < |b| < 3
    ensures WellShaped(EncodeRest(b)) && Pads(EncodeRest(b)) == 3 - |b| && DecodeRest(EncodeRest(b)) == b
  {
    RestIsWellShaped(b);
  }

  /** A string is accepted as `b` exactly when it is the canonical encoding of the non-empty `b`. */
  lemma StrictIsExactInverse(s: string, b: seq<Byte>)
    ensures DecodeStrict(s) == Some(b) <==> b != [] && s == Encode(b)
  {
    DecodeEncode(b);
    EncodingIsWellShaped(b);
  }

  /** Two payloads never stand for the same bytes. */
  lemma AcceptedStringsDiffer(s: string, t: string)
    requires DecodeStrict(s).Some? && DecodeStrict(s) == DecodeStrict(t)
    ensures s == t
  {
    StrictIsExactInverse(s, DecodeStrict(s).value);
    StrictIsExactInverse(t, DecodeStrict(s).value);
  }

  // -------------------------------------------------- which strings are taken

  /** Section 3.5: the bits the last symbol carries beyond the last byte are zero. */
  predicate PadBitsAreZero(s: string)
    requires WellShaped(s)
  {
    match Pads(s)
    case 0 => true
    case 1 => Sextet(s[|s| - 2]) % 4 == 0
    case _ => Sextet(s[|s| - 3]) % 16 == 0
  }

  /** A string is accepted exactly when it is non-empty, has the shape of section 4 and the pad bits of
      section 3.5; it then carries three bytes per quad, less one per `=`. */
  lemma AcceptedExactly(s: string)
    ensures DecodeStrict(s).Some? <==> s != "" && WellShaped(s) && PadBitsAreZero(s)
    ensures DecodeStrict(s).Some? ==> 4 * |DecodeStrict(s).value| == 3 * |s| - 4 * Pads(s)
  {
    if s != "" && WellShaped(s) {
      EncodeDecode(s);
    }
  }

  lemma SymbolOfSextet(c: char)
    requires InAlphabet(c)
    ensures Symbol(Sextet(c)) == c
  {
  }

  lemma {:induction false} EncodeDecode(s: string)
    requires WellShaped(s)
    ensures Encode(Decode(s)) == s <==> PadBitsAreZero(s)
    ensures 4 * |Decode(s)| == 3 * |s| - 4 * Pads(s)
    decreases |s|
  {
    if s == "" {
    } else if |s| == 4 && Pads(s) > 0 {
      LastQuad(s);
    } else {
      FirstQuad(s);
      var q, t := s[..4], s[4..];
      assert s == q + t;
      EncodeDecodeQuad(q, t);
    }
  }

  lemma {:induction false} EncodeDecodeQuad(q: string, t: string)
    requires |q| == 4 && Quads(q) && WellShaped(t)
    ensures WellShaped(q + t)
    ensures Encode(Decode(q + t)) == q + t <==> PadBitsAreZero(q + t)
    ensures 4 * |Decode(q + t)| == 3 * |q + t| - 4 * Pads(q + t)
    decreases |t| + 4, 0
  {
    EncodeDecode(t);
    EncodeDecodeStep(q, t);
  }

  lemma EncodeDecodeStep(q: string, s: string)
    requires |q| == 4 && Quads(q) && WellShaped(s)
    ensures WellShaped(q + s) && Pads(q + s) == Pads(s) && |Decode(q + s)| == 3 + |Decode(s)|
    ensures Encode(Decode(q + s)) == q + s <==> Encode(Decode(s)) == s
    ensures PadBitsAreZero(q + s) == PadBitsAreZero(s)
  {
    var t := DecodeQuad(q);
    DecodeAfterQuad(q, s);
    EncodeAfterTriple(t, Decode(s));
    TripleOfQuad(q);
    assert (q + Encode(Decode(s)))[4..] == Encode(Decode(s)) && (q + s)[4..] == s;
    QuadInFront(q, s);
    PadBitsOfTail(q + s);
  }

  lemma PadBitsOfTail(s: string)
    requires WellShaped(s) && |s| >= 4 && WellShaped(s[4..]) && Pads(s[4..]) == Pads(s)
    ensures PadBitsAreZero(s) == PadBitsAreZero(s[4..])
  {
  }

  lemma JoinAndSplit(w: nat, x: nat, y: nat, z: nat)
    requires w < 64 && x < 64 && y < 64 && z < 64
    ensures var a, b, c := w * 4 + x / 16, x % 16 * 16 + y / 4, y % 4 * 64 + z;
            a / 4 == w && a % 4 * 16 + b / 16 == x && b % 16 * 4 + c / 64 == y && c % 64 == z
  {
    var x1, x0, y1, y0 := x / 16, x % 16, y / 4, y % 4;
    assert (w * 4 + x1) / 4 == w && (w * 4 + x1) % 4 == x1;
    assert (x0 * 16 + y1) / 16 == x0 && (x0 * 16 + y1) % 16 == y1;
    assert (y0 * 64 + z) / 64 == y0 && (y0 * 64 + z) % 64 == z;
  }

  lemma SplitOfJoined(w: nat, x: nat, y: nat, z: nat)
    requires w < 64 && x < 64 && y < 64 && z < 64
    ensures var b := Join(w, x, y, z);
            b[0] / 4 == w && b[0] % 4 * 16 + b[1] / 16 == x && b[1] % 16 * 4 + b[2] / 64 == y && b[2] % 64 == z
  {
    JoinAndSplit(w, x, y, z);
  }

  lemma SymbolsOfJoined(b: seq<Byte>, w: nat, x: nat, y: nat, z: nat)
    requires |b| == 3 && w < 64 && x < 64 && y < 64 && z < 64
    requires b[0] / 4 == w && b[0] % 4 * 16 + b[1] / 16 == x && b[1] % 16 * 4 + b[2] / 64 == y && b[2] % 64 == z
    ensures EncodeTriple(b[0], b[1], b[2]) == [Symbol(w), Symbol(x), Symbol(y), Symbol(z)]
  {
  }

  lemma SymbolsOfQuad(q: string)
    requires |q| == 4 && Quads(q)
    ensures [Symbol(Sextet(q[0])), Symbol(Sextet(q[1])), Symbol(Sextet(q[2])), Symbol(Sextet(q[3]))] == q
  {
    forall i | 0 <= i < 4 ensures Symbol(Sextet(q[i])) == q[i] {
      SymbolOfSextet(q[i]);
    }
  }

  lemma TripleOfQuad(q: string)
    requires |q| == 4 && Quads(q)
    ensures var b := DecodeQuad(q); EncodeTriple(b[0], b[1], b[2]) == q
  {
    SplitOfJoined(Sextet(q[0]), Sextet(q[1]), Sextet(q[2]), Sextet(q[3]));
    SymbolsOfJoined(DecodeQuad(q), Sextet(q[0]), Sextet(q[1]), Sextet(q[2]), Sextet(q[3]));
    SymbolsOfQuad(q);
  }

  lemma LastQuad(s: string)
    requires |s| == 4 && WellShaped(s) && Pads(s) > 0
    ensures EncodeRest(DecodeRest(s)) == s <==> PadBitsAreZero(s)
  {
    if Pads(s) == 1 {
      LastQuadOfThree(s);
    } else {
      LastQuadOfTwo(s);
    }
  }

  lemma LastQuadOfTwo(s: string)
    requires |s| == 4 && WellShaped(s) && Pads(s) == 2
    ensures EncodeRest(DecodeRest(s)) == s <==> Sextet(s[1]) % 16 == 0
  {
    var w, x := Sextet(s[0]), Sextet(s[1]);
    SymbolOfSextet(s[0]);
    SymbolOfSextet(s[1]);
    TwoSymbols(DecodeRest(s), w, x);
    assert s == [Symbol(w), Symbol(x), '=', '='];
    if Symbol(x / 16 * 16) == Symbol(x) {
      SameSymbol(x / 16 * 16, x);
    }
  }

  lemma LastQuadOfThree(s: string)
    requires |s| == 4 && WellShaped(s) && Pads(s) == 1
    ensures EncodeRest(DecodeRest(s)) == s <==> Sextet(s[2]) % 4 == 0
  {
    var w, x, y := Sextet(s[0]), Sextet(s[1]), Sextet(s[2]);
    SymbolOfSextet(s[0]);
    SymbolOfSextet(s[1]);
    SymbolOfSextet(s[2]);
    ThreeSymbols(DecodeRest(s), w, x, y);
    assert s == [Symbol(w), Symbol(x), Symbol(y), '='];
    if Symbol(y / 4 * 4) == Symbol(y) {
      SameSymbol(y / 4 * 4, y);
    }
  }

  lemma TwoSymbols(b: seq<Byte>, w: nat, x: nat)
    requires |b| == 1 && w < 64 && x < 64 && b[0] == w * 4 + x / 16
    ensures EncodeRest(b) == [Symbol(w), Symbol(x / 16 * 16), '=', '=']
  {
    var x1 := x / 16;
    assert (w * 4 + x1) / 4 == w && (w * 4 + x1) % 4 == x1;
  }

  lemma ThreeSymbols(b: seq<Byte>, w: nat, x: nat, y: nat)
    requires |b| == 2 && w < 64 && x < 64 && y < 64 && b[0] == w * 4 + x / 16 && b[1] == x % 16 * 16 + y / 4
    ensures EncodeRest(b) == [Symbol(w), Symbol(x), Symbol(y / 4 * 4), '=']
  {
    JoinAndSplit(w, x, y, 0);
    var y1, y0 := y / 4, y % 4;
    assert y == y1 * 4 + y0 && y0 * 64 / 64 == y0;
    assert b[1] % 16 * 4 == y1 * 4;
  }

  lemma SameSymbol(m: nat, n: nat)
    requires m < 64 && n < 64 && Symbol(m) == Symbol(n)
    ensures m == n
  {
    assert Sextet(Symbol(m)) == m;
  }
}
