/** The gateway's status-line sanitizer: UTF-8 bytes in, UTF-8 bytes out, with
    every rune the client's fonts lack replaced. */
module Utf8Sanitizer {

  type Byte = b: nat | b < 256

  type Rune = nat

  const REPLACEMENT: Rune := 0xFFFD

  /** A Unicode scalar value. */
  predicate Scalar(r: Rune) {
    r < 0xD800 || 0xE000 <= r <= 0x10FFFF
  }

  predicate Tail(b: Byte) {
    0x80 <= b <= 0xBF
  }

  /** RFC 3629, section 4: the length of the well-formed character that `s` starts
      with, or 0 when there is none. */
  function CharLength(s: seq<Byte>): (n: nat)
    ensures n <= |s| && n <= 4
  {
    if |s| >= 1 && s[0] <= 0x7F then 1
    else if |s| >= 2 && 0xC2 <= s[0] <= 0xDF && Tail(s[1]) then 2
    else if |s| >= 3 && Tail(s[2]) &&
            ((s[0] == 0xE0 && 0xA0 <= s[1] <= 0xBF) || (0xE1 <= s[0] <= 0xEC && Tail(s[1])) ||
             (s[0] == 0xED && 0x80 <= s[1] <= 0x9F) || (0xEE <= s[0] <= 0xEF && Tail(s[1]))) then 3
    else if |s| >= 4 && Tail(s[2]) && Tail(s[3]) &&
            ((s[0] == 0xF0 && 0x90 <= s[1] <= 0xBF) || (0xF1 <= s[0] <= 0xF3 && Tail(s[1])) ||
             (s[0] == 0xF4 && 0x80 <= s[1] <= 0x8F)) then 4
    else 0
  }

  predicate WellFormed(s: seq<Byte>) {
    s == [] || (CharLength(s) > 0 && WellFormed(s[CharLength(s)..]))
  }

  /** RFC 3629, section 3, as a range loop over a string applies it: gather the bits
      of the sequence that the first byte announces; anything overlong, a surrogate,
      out of range or cut short is the replacement rune, one byte wide. */
  function DecodeRune(s: seq<Byte>): (r: (Rune, nat))
    requires s != []
    ensures 1 <= r.1 <= |s| && Scalar(r.0)
  {
    if s[0] < 0x80 then (s[0], 1)
    else if 0xC0 <= s[0] < 0xE0 && |s| >= 2 && Tail(s[1]) then
      var v: int := (s[0] as int - 0xC0) * 0x40 + (s[1] as int - 0x80);
      if v >= 0x80 then (v, 2) else (REPLACEMENT, 1)
    else if 0xE0 <= s[0] < 0xF0 && |s| >= 3 && Tail(s[1]) && Tail(s[2]) then
      var v: int := (s[0] as int - 0xE0) * 0x1000 + (s[1] as int - 0x80) * 0x40 + (s[2] as int - 0x80);
      if v >= 0x800 && Scalar(v) then (v, 3) else (REPLACEMENT, 1)
    else if 0xF0 <= s[0] < 0xF8 && |s| >= 4 && Tail(s[1]) && Tail(s[2]) && Tail(s[3]) then
      var v: int := (s[0] as int - 0xF0) * 0x40000 + (s[1] as int - 0x80) * 0x1000 + (s[2] as int - 0x80) * 0x40 +
                    (s[3] as int - 0x80);
      if v >= 0x10000 && Scalar(v) then (v, 4) else (REPLACEMENT, 1)
    else (REPLACEMENT, 1)
  }

  function DecodeAll(s: seq<Byte>): seq<Rune> {
    if s == [] then []
    else
      var (r, n) := DecodeRune(s);
      [r] + DecodeAll(s[n..])
  }

  /** appendRune: the bits of a rune spread over one to four bytes. */
  function EncodeRune(r: Rune): (b: seq<Byte>)
    ensures 1 <= |b| <= 4
  {
    if r < 0x80 then [r]
    else if r < 0x800 then [0xC0 + r / 0x40, 0x80 + r % 0x40]
    else if r < 0x10000 then
      if 0xD800 <= r <= 0xDFFF then [0xEF, 0xBF, 0xBD]
      else [0xE0 + r / 0x1000, 0x80 + (r / 0x40) % 0x40, 0x80 + r % 0x40]
    else if r > 0x10FFFF then [0xEF, 0xBF, 0xBD]
    else [0xF0 + r / 0x40000, 0x80 + (r / 0x1000) % 0x40, 0x80 + (r / 0x40) % 0x40, 0x80 + r % 0x40]
  }

  function FlatMap<T, U>(f: T -> seq<U>, xs: seq<T>): seq<U> {
    if xs == [] then [] else FlatMap(f, xs[..|xs| - 1]) + f(xs[|xs| - 1])
  }

  function EncodeAll(rs: seq<Rune>): seq<Byte> {
    FlatMap(EncodeRune, rs)
  }

  /** What stands in for a rune the fonts lack; [] when it passes through. */
  function Substitute(r: Rune): (text: seq<Rune>)
  {
    if r in {0x2500, 0x2501, 0x2504, 0x2505, 0x2508, 0x2509, 0x254C, 0x254D} then [0x2D]
    else if r in {0x2502, 0x2503, 0x2506, 0x2507, 0x250A, 0x250B, 0x254E, 0x254F} then [0x7C]
    else if 0x250C <= r <= 0x254B then [0x2B]
    else if 0x256D <= r <= 0x2573 then [0x2B]
    else if r in {0x2550, 0x2552, 0x2555, 0x2558, 0x255B, 0x2564, 0x2567} then [0x3D]
    else if r in {0x2551, 0x2553, 0x2556, 0x2559, 0x255C, 0x2565, 0x2568} then [0x7C]
    else if r in {0x2554, 0x2557, 0x255A, 0x255D, 0x2560, 0x2563, 0x2566, 0x2569, 0x256A, 0x256B, 0x256C} then [0x2B]
    else if r == 0x21B5 then [0x3C, 0x43, 0x52, 0x3E]
    else if r == 0x23BF then [0x4C]
    else if r == 0x23FA then [0x25CF]
    else if r == 0x2190 then [0x3C, 0x2D]
    else if r == 0x2191 then [0x5E]
    else if r == 0x2192 then [0x2D, 0x3E]
    else if r == 0x2193 then [0x76]
    else if r == 0x2612 then [0x5B, 0x58, 0x5D]
    else []
  }

  predicate Renderable(r: Rune) {
    Substitute(r) == []
  }

  function Shown(r: Rune): seq<Rune> {
    if Renderable(r) then [r] else Substitute(r)
  }

  function ShownAll(rs: seq<Rune>): seq<Rune> {
    FlatMap(Shown, rs)
  }

  predicate Ascii(s: seq<Byte>) {
    forall i :: 0 <= i < |s| ==> s[i] < 0x80
  }

  method SanitizeStatusLine(s: seq<Byte>) returns (out: seq<Byte>)
    ensures out == EncodeAll(ShownAll(DecodeAll(s)))
  {
    if s == [] {
      return s;
    }
    var allASCII := IsAscii(s);
    if allASCII {
      AsciiIsKept(s);
      return s;
    }
    out := ReplaceRunes(s);
  }

  method IsAscii(s: seq<Byte>) returns (allASCII: bool)
    ensures allASCII == Ascii(s)
  {
    for i := 0 to |s|
      invariant forall k :: 0 <= k < i ==> s[k] < 0x80
    {
      if s[i] >= 0x80 {
        return false;
      }
    }
    return true;
  }

  /** The range loop. */
  method ReplaceRunes(s: seq<Byte>) returns (out: seq<Byte>)
    ensures out == EncodeAll(ShownAll(DecodeAll(s)))
  {
    hide DecodeRune, Shown, EncodeRune;
    out := [];
    var at := 0;
    ghost var seen: seq<Rune> := [];
    while at < |s|
      invariant 0 <= at <= |s|
      invariant Replaced(s, at, seen, out)
    {
      var (r, n) := DecodeRune(s[at..]);
      NextRune(s, at, seen, out);
      var text := EncodeShown(r);
      out := out + text;
      seen := seen + [r];
      at := at + n;
    }
    assert s[at..] == [];
    assert DecodeAll(s) == seen;
  }

  ghost predicate Replaced(s: seq<Byte>, at: nat, seen: seq<Rune>, out: seq<Byte>)
    requires at <= |s|
  {
    DecodeAll(s) == seen + DecodeAll(s[at..]) && out == EncodeAll(ShownAll(seen))
  }

  /** A rune's replacement, or the rune itself. */
  method EncodeShown(r: Rune) returns (b: seq<Byte>)
    ensures b == EncodeAll(Shown(r))
  {
    if Substitute(r) != [] {
      return EncodeAll(Substitute(r));
    }
    FlatMapOfOne(EncodeRune, r);
    return EncodeRune(r);
  }

  lemma NextRune(s: seq<Byte>, at: nat, seen: seq<Rune>, out: seq<Byte>)
    requires at < |s| && Replaced(s, at, seen, out)
    ensures var (r, n) := DecodeRune(s[at..]); Replaced(s, at + n, seen + [r], out + EncodeAll(Shown(r)))
  {
    var (r, n) := DecodeRune(s[at..]);
    assert s[at..][n..] == s[at + n..];
    assert seen + ([r] + DecodeAll(s[at + n..])) == (seen + [r]) + DecodeAll(s[at + n..]);
    OneMoreRune(seen, r);
  }

  lemma OneMoreRune(seen: seq<Rune>, r: Rune)
    ensures EncodeAll(ShownAll(seen + [r])) == EncodeAll(ShownAll(seen)) + EncodeAll(Shown(r))
  {
    FlatMapOfConcat(Shown, seen, [r]);
    FlatMapOfOne(Shown, r);
    FlatMapOfConcat(EncodeRune, ShownAll(seen), Shown(r));
  }

  /* ---------- encoding and decoding ---------- */

  lemma {:induction false} FlatMapOfConcat<T, U>(f: T -> seq<U>, a: seq<T>, b: seq<T>)
    ensures FlatMap(f, a + b) == FlatMap(f, a) + FlatMap(f, b)
    decreases |b|
  {
    if b == [] {
      assert a + b == a;
    } else {
      FlatMapOfConcat(f, a, b[..|b| - 1]);
      assert (a + b)[..|a + b| - 1] == a + b[..|b| - 1];
    }
  }

  lemma FlatMapOfOne<T, U>(f: T -> seq<U>, x: T)
    ensures FlatMap(f, [x]) == f(x)
  {
    assert [x][..0] == [];
  }

  /** The grammar of section 4 accepts exactly what the bit rules of section 3 do. */
  lemma GrammarMatchesBits(s: seq<Byte>)
    requires s != []
    ensures CharLength(s) > 0 ==> DecodeRune(s).1 == CharLength(s)
    ensures CharLength(s) == 0 ==> DecodeRune(s) == (REPLACEMENT, 1)
  {
  }

  lemma Digits(r: Rune)
    ensures r == (r / 0x40) * 0x40 + r % 0x40
    ensures r / 0x40 == (r / 0x1000) * 0x40 + (r / 0x40) % 0x40
    ensures r / 0x1000 == (r / 0x40000) * 0x40 + (r / 0x1000) % 0x40
  {
  }

  lemma DecodeOfShort(r: Rune, s: seq<Byte>)
    requires r < 0x800 && EncodeRune(r) <= s
    ensures DecodeRune(s) == (r, |EncodeRune(r)|)
  {
    Digits(r);
    assert forall i :: 0 <= i < |EncodeRune(r)| ==> s[i] == EncodeRune(r)[i];
  }

  lemma DecodeOfThree(r: Rune, s: seq<Byte>)
    requires Scalar(r) && 0x800 <= r < 0x10000 && EncodeRune(r) <= s
    ensures DecodeRune(s) == (r, |EncodeRune(r)|)
  {
    Digits(r);
    assert forall i :: 0 <= i < 3 ==> s[i] == EncodeRune(r)[i];
  }

  lemma DecodeOfFour(r: Rune, s: seq<Byte>)
    requires Scalar(r) && 0x10000 <= r && EncodeRune(r) <= s
    ensures DecodeRune(s) == (r, |EncodeRune(r)|)
  {
    Digits(r);
    assert forall i :: 0 <= i < 4 ==> s[i] == EncodeRune(r)[i];
  }

  lemma DecodeOfEncode(r: Rune, rest: seq<Byte>)
    requires Scalar(r)
    ensures DecodeRune(EncodeRune(r) + rest) == (r, |EncodeRune(r)|)
    ensures CharLength(EncodeRune(r) + rest) == |EncodeRune(r)|
  {
    var s := EncodeRune(r) + rest;
    GrammarMatchesBits(s);
    hide EncodeRune, DecodeRune, CharLength;
    if r < 0x800 {
      DecodeOfShort(r, s);
    } else if r < 0x10000 {
      DecodeOfThree(r, s);
    } else {
      DecodeOfFour(r, s);
    }
    EncodedIsPlain(r, s);
  }

  lemma EncodedIsPlain(r: Rune, s: seq<Byte>)
    requires Scalar(r) && EncodeRune(r) <= s
    ensures r == REPLACEMENT ==> CharLength(s) == 3 == |EncodeRune(r)|
  {
    assert r == REPLACEMENT ==> EncodeRune(r) == [0xEF, 0xBF, 0xBD];
    assert forall i :: 0 <= i < |EncodeRune(r)| ==> s[i] == EncodeRune(r)[i];
  }

  lemma Undigits(a: nat, b: nat, c: nat, d: nat)
    requires b < 0x40 && c < 0x40 && d < 0x40
    ensures var v := a * 0x40000 + b * 0x1000 + c * 0x40 + d;
            v / 0x40000 == a && (v / 0x1000) % 0x40 == b && (v / 0x40) % 0x40 == c && v % 0x40 == d
    ensures var v := b * 0x1000 + c * 0x40 + d; v / 0x1000 == b && (v / 0x40) % 0x40 == c && v % 0x40 == d
    ensures var v := c * 0x40 + d; v / 0x40 == c && v % 0x40 == d
  {
    Undigit(c, d);
    Undigit(b * 0x40 + c, d);
    Undigit(b, c);
    Undigit(a * 0x1000 + b * 0x40 + c, d);
    Undigit(a * 0x40 + b, c);
    Undigit(a, b);
    Shifts(b * 0x1000 + c * 0x40 + d);
    Shifts(a * 0x40000 + b * 0x1000 + c * 0x40 + d);
  }

  lemma Undigit(x: nat, d: nat)
    requires d < 0x40
    ensures (x * 0x40 + d) / 0x40 == x && (x * 0x40 + d) % 0x40 == d
  {
  }

  lemma Shifts(v: nat)
    ensures v / 0x1000 == (v / 0x40) / 0x40 && v / 0x40000 == (v / 0x1000) / 0x40
  {
  }

  lemma EncodeOfTwo(s: seq<Byte>)
    requires CharLength(s) == 2
    ensures EncodeRune(DecodeRune(s).0) == s[..2]
  {
    Undigits(0, 0, s[0] - 0xC0, s[1] - 0x80);
  }

  lemma EncodeOfThree(s: seq<Byte>)
    requires CharLength(s) == 3
    ensures EncodeRune(DecodeRune(s).0) == s[..3]
  {
    Undigits(0, s[0] - 0xE0, s[1] - 0x80, s[2] - 0x80);
  }

  lemma EncodeOfFour(s: seq<Byte>)
    requires CharLength(s) == 4
    ensures EncodeRune(DecodeRune(s).0) == s[..4]
  {
    Undigits(s[0] - 0xF0, s[1] - 0x80, s[2] - 0x80, s[3] - 0x80);
  }

  lemma EncodeOfDecode(s: seq<Byte>)
    requires CharLength(s) > 0
    ensures EncodeRune(DecodeRune(s).0) == s[..CharLength(s)]
  {
    var n := CharLength(s);
    if n == 2 {
      EncodeOfTwo(s);
    } else if n == 3 {
      EncodeOfThree(s);
    } else if n == 4 {
      EncodeOfFour(s);
    }
  }

  ghost predicate Scalars(rs: seq<Rune>) {
    forall i :: 0 <= i < |rs| ==> Scalar(rs[i])
  }

  lemma {:induction false} DecodeGivesScalars(s: seq<Byte>)
    ensures Scalars(DecodeAll(s))
    decreases |s|
  {
    if s != [] {
      DecodeGivesScalars(s[DecodeRune(s).1..]);
    }
  }

  lemma {:induction false} EncodeFront(rs: seq<Rune>)
    requires rs != []
    ensures EncodeAll(rs) == EncodeRune(rs[0]) + EncodeAll(rs[1..])
  {
    FlatMapOfConcat(EncodeRune, [rs[0]], rs[1..]);
    assert [rs[0]] + rs[1..] == rs;
    FlatMapOfOne(EncodeRune, rs[0]);
  }

  /** Encoding is well-formed and decodes to what was encoded. */
  lemma {:induction false} RoundTrip(rs: seq<Rune>)
    requires Scalars(rs)
    ensures WellFormed(EncodeAll(rs)) && DecodeAll(EncodeAll(rs)) == rs
  {
    if rs != [] {
      EncodeFront(rs);
      RoundTrip(rs[1..]);
      DecodeOfEncode(rs[0], EncodeAll(rs[1..]));
      var s := EncodeAll(rs);
      assert s[|EncodeRune(rs[0])|..] == EncodeAll(rs[1..]);
    }
  }

  lemma {:induction false} DecodeThenEncode(s: seq<Byte>)
    requires WellFormed(s)
    ensures EncodeAll(DecodeAll(s)) == s
    decreases |s|
  {
    if s != [] {
      var n := CharLength(s);
      assert s == s[..n] + s[n..];
      GrammarMatchesBits(s);
      EncodeOfDecode(s);
      DecodeThenEncode(s[n..]);
      EncodeFront(DecodeAll(s));
      assert DecodeAll(s)[1..] == DecodeAll(s[n..]);
    }
  }

  /* ---------- replacement ---------- */

  lemma SubstitutesAreRenderable(r: Rune)
    requires Scalar(r)
    ensures forall i :: 0 <= i < |Shown(r)| ==> Renderable(Shown(r)[i]) && Scalar(Shown(r)[i])
  {
  }

  lemma {:induction false} ShownIsRenderable(rs: seq<Rune>)
    requires Scalars(rs)
    ensures Scalars(ShownAll(rs)) && forall i :: 0 <= i < |ShownAll(rs)| ==> Renderable(ShownAll(rs)[i])
  {
    if rs != [] {
      ShownIsRenderable(rs[..|rs| - 1]);
      SubstitutesAreRenderable(rs[|rs| - 1]);
    }
  }

  lemma {:induction false} RenderableIsKept(rs: seq<Rune>)
    requires forall i :: 0 <= i < |rs| ==> Renderable(rs[i])
    ensures ShownAll(rs) == rs
  {
    if rs != [] {
      RenderableIsKept(rs[..|rs| - 1]);
    }
  }

  lemma {:induction false} AsciiDecodes(s: seq<Byte>)
    requires Ascii(s)
    ensures DecodeAll(s) == s && WellFormed(s)
  {
    if s != [] {
      AsciiDecodes(s[1..]);
    }
  }

  lemma AsciiIsRenderable(s: seq<Byte>)
    requires Ascii(s)
    ensures forall i :: 0 <= i < |s| ==> Renderable(s[i])
  {
  }

  /** The fast path for ASCII agrees with the rune loop. */
  lemma AsciiIsKept(s: seq<Byte>)
    requires Ascii(s)
    ensures EncodeAll(ShownAll(DecodeAll(s))) == s
  {
    AsciiDecodes(s);
    AsciiIsRenderable(s);
    RenderableIsKept(DecodeAll(s));
    DecodeThenEncode(s);
  }

  /** For every byte string the output is well-formed UTF-8, and reads as the input
      does with every rune replaced on its own. */
  lemma OutputIsWellFormed(s: seq<Byte>)
    ensures var out := EncodeAll(ShownAll(DecodeAll(s)));
            WellFormed(out) && DecodeAll(out) == ShownAll(DecodeAll(s)) &&
            forall i :: 0 <= i < |DecodeAll(out)| ==> Renderable(DecodeAll(out)[i])
  {
    DecodeGivesScalars(s);
    ShownIsRenderable(DecodeAll(s));
    RoundTrip(ShownAll(DecodeAll(s)));
  }

  /** Sanitizing twice is sanitizing once. */
  lemma SanitizingIsIdempotent(s: seq<Byte>)
    ensures var once := EncodeAll(ShownAll(DecodeAll(s))); EncodeAll(ShownAll(DecodeAll(once))) == once
  {
    OutputIsWellFormed(s);
    RenderableIsKept(ShownAll(DecodeAll(s)));
  }

  /** A line passes unchanged exactly when it is well-formed and renderable. */
  lemma UnchangedExactlyWhen(s: seq<Byte>)
    ensures EncodeAll(ShownAll(DecodeAll(s))) == s <==>
            WellFormed(s) && forall i :: 0 <= i < |DecodeAll(s)| ==> Renderable(DecodeAll(s)[i])
  {
    OutputIsWellFormed(s);
    if WellFormed(s) && forall i :: 0 <= i < |DecodeAll(s)| ==> Renderable(DecodeAll(s)[i]) {
      RenderableIsKept(DecodeAll(s));
      DecodeThenEncode(s);
    }
  }

  /** What is no scalar value is written as the replacement rune. */
  lemma NonScalarsAreReplaced(r: Rune)
    requires !Scalar(r)
    ensures EncodeRune(r) == EncodeRune(REPLACEMENT) == [0xEF, 0xBF, 0xBD]
  {
  }

  /* ---------- the table, character by character ---------- */

  function Codes(s: string): (r: seq<Rune>)
    ensures |r| == |s| && forall i :: 0 <= i < |r| ==> r[i] == s[i] as int
  {
    seq(|s|, i requires 0 <= i < |s| => s[i] as int)
  }

  predicate Becomes(c: char, text: string) {
    Shown(c as int) == Codes(text)
  }

  /** What each character without a glyph becomes: lines, */
  lemma LinesBecome(c: char)
    ensures c in "─━┄┅┈┉╌╍" ==> Becomes(c, "-")
    ensures c in "│┃┆┇┊┋╎╏" ==> Becomes(c, "|")
    ensures c in "═╒╕╘╛╤╧" ==> Becomes(c, "=")
    ensures c in "║╓╖╙╜╥╨" ==> Becomes(c, "|")
  {
    hide FlatMap;
  }

  /** corners, tees and crosses, */
  lemma CornersBecome(c: char)
    ensures '┌' <= c <= '╋' ==> Becomes(c, "+")
    ensures c in "╭╮╯╰╱╲╳" ==> Becomes(c, "+")
    ensures c in "╔╗╚╝╠╣╦╩╪╫╬" ==> Becomes(c, "+")
  {
  }

  /** single signs, */
  lemma SignsBecome()
    ensures Becomes('↵', "<CR>") && Becomes('⎿', "L") && Becomes('⏺', "●") && Becomes('☒', "[X]")
  {
  }

  /** and arrows. */
  lemma ArrowsBecome()
    ensures Becomes('←', "<-") && Becomes('↑', "^") && Becomes('→', "->") && Becomes('↓', "v")
  {
  }

  /** Of the box-drawing block, U+2500 to U+257F, exactly these pass through, although
      no font of the clients has them: four double tees and the half lines at the end. */
  lemma BoxDrawingLeftExactly(r: Rune)
    requires 0x2500 <= r <= 0x257F
    ensures Shown(r) == [r] <==> r in Codes("╞╟╡╢") || r >= '╴' as int
  {
    assert Codes("╞╟╡╢") == [0x255E, 0x255F, 0x2561, 0x2562];
  }

  /** Elsewhere nothing but the single signs is replaced. */
  lemma OthersPassExactly(r: Rune)
    requires r < 0x2500 || r > 0x257F
    ensures Shown(r) == [r] <==> r !in Codes("↵⎿⏺☒←↑→↓")
  {
    assert Codes("↵⎿⏺☒←↑→↓") == [0x21B5, 0x23BF, 0x23FA, 0x2612, 0x2190, 0x2191, 0x2192, 0x2193];
  }
}
