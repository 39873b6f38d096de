/** `won::utils` string helpers: UTF-8 to wide strings and back, ASCII case
    mapping and the FNV-1a hash.

    A `String` is its run of bytes. A `WString` is its run of `wchar_t`
    units, each given as the unsigned value of the unit. The width of
    `wchar_t` is a parameter: 16 bits on Windows, where wide strings are
    UTF-16, and 32 bits elsewhere, where each unit holds a code point.
    Bit masks and `|` of disjoint bit fields are written as `%` and `+`. */
module StringUtils {
  import opened Common

  datatype WCharWidth = Wide16 | Wide32

  /** The number of distinct `wchar_t` values. */
  function WCharModulus(w: WCharWidth): nat {
    if w == Wide16 then 0x1_0000 else U32
  }

  // ---------------------------------------------------------------------
  // UTF-8 lead bytes

  /** How many bytes the sequence led by `c` spans, as the `if` chain of
      `ToWideString` classifies it; 0 for a byte the decoder skips (a
      stray continuation byte, or 0xF8 and above). */
  function SequenceLength(c: Byte): (n: nat)
    ensures n <= 4
    ensures n == 1 <==> c < 0x80
    // the bytes that lead nothing
    ensures n == 0 <==> (0x80 <= c < 0xC0 || 0xF8 <= c)
  {
    if c < 0x80 then 1
    else if 0xC0 <= c < 0xE0 then 2
    else if 0xE0 <= c < 0xF0 then 3
    else if 0xF0 <= c < 0xF8 then 4
    else 0
  }

  /** The masks the source tests agree with the byte ranges used above. */
  lemma LeadByteMasks(c: bv8)
    ensures ((c & 0xE0) == 0xC0) == (0xC0 <= c < 0xE0)
    ensures ((c & 0xF0) == 0xE0) == (0xE0 <= c < 0xF0)
    ensures ((c & 0xF8) == 0xF0) == (0xF0 <= c < 0xF8)
  {
  }

  /** The code point carried by the first `n` bytes of `s`: the low bits of
      the lead byte followed by six bits from each continuation byte.
      Continuation bytes are not checked to be of the form 10xxxxxx. */
  function Payload(s: seq<Byte>, n: nat): (cp: nat)
    requires 1 <= n <= 4 && n <= |s|
    ensures cp < 0x20_0000
  {
    var b0: int, b1: int, b2: int, b3: int :=
      s[0], if n > 1 then s[1] else 0, if n > 2 then s[2] else 0, if n > 3 then s[3] else 0;
    if n == 1 then b0
    else if n == 2 then (b0 % 0x20) * 0x40 + b1 % 0x40
    else if n == 3 then (b0 % 0x10) * 0x1000 + (b1 % 0x40) * 0x40 + b2 % 0x40
    else (b0 % 0x08) * 0x4_0000 + (b1 % 0x40) * 0x1000 + (b2 % 0x40) * 0x40 + b3 % 0x40
  }

  /** The wide units one code point is appended as: one unit with 32-bit
      `wchar_t`; with 16-bit `wchar_t` a surrogate pair above 0xFFFF. */
  function Emit(w: WCharWidth, cp: nat): (units: seq<nat>)
    ensures 1 <= |units| <= 2
  {
    if w == Wide32 || cp <= 0xFFFF then [cp]
    else [(cp - 0x1_0000) / 0x400 + 0xD800, (cp - 0x1_0000) % 0x400 + 0xDC00]
  }

  /** `ToWideString`: decode UTF-8 sequence by sequence. A byte that leads
      nothing is skipped; a sequence cut short by the end of the input ends
      the decoding. */
  function ToWideString(w: WCharWidth, s: seq<Byte>): (r: seq<nat>)
    ensures forall k :: 0 <= k < |r| ==> r[k] < WCharModulus(w)
    decreases |s|
  {
    if |s| == 0 then []
    else
      var n := SequenceLength(s[0]);
      if n == 0 then ToWideString(w, s[1..])
      else if |s| < n then []
      else EmitFits(w, Payload(s, n)); Emit(w, Payload(s, n)) + ToWideString(w, s[n..])
  }

  lemma EmitFits(w: WCharWidth, cp: nat)
    requires cp < 0x20_0000
    ensures forall k :: 0 <= k < |Emit(w, cp)| ==> Emit(w, cp)[k] < WCharModulus(w)
  {
  }

  // ---------------------------------------------------------------------
  // Encoding

  /** The UTF-8 bytes `ToString` appends for one code point; nothing above
      0x10FFFF. */
  function Encode(cp: nat): (r: seq<Byte>)
    ensures cp <= 0x10FFFF <==> |r| > 0
    ensures |r| > 0 ==> SequenceLength(r[0]) == |r|
    ensures forall k :: 1 <= k < |r| ==> 0x80 <= r[k] < 0xC0
    ensures |r| <= 4
    // ASCII is its own encoding
    ensures cp < 0x80 ==> r == [cp]
  {
    if cp <= 0x7F then [cp]
    else if cp <= 0x7FF then [0xC0 + (cp / 0x40) % 0x20, 0x80 + cp % 0x40]
    else if cp <= 0xFFFF then
      [0xE0 + (cp / 0x1000) % 0x10, 0x80 + (cp / 0x40) % 0x40, 0x80 + cp % 0x40]
    else if cp <= 0x10FFFF then
      [0xF0 + (cp / 0x4_0000) % 0x08, 0x80 + (cp / 0x1000) % 0x40,
       0x80 + (cp / 0x40) % 0x40, 0x80 + cp % 0x40]
    else []
  }

  /** The code point that starts `ws`, and how many units it takes. With
      16-bit `wchar_t` a high surrogate followed by a low one combine; a
      high surrogate without its partner reads as code point 0. */
  function CodePointAt(w: WCharWidth, ws: seq<nat>): (r: (nat, nat))
    requires |ws| > 0
    ensures 1 <= r.1 <= |ws| && r.1 <= 2
    // two units exactly when a high surrogate is followed by a low one
    ensures r.1 == 2 <==>
      w != Wide32 && |ws| >= 2 && 0xD800 <= ws[0] <= 0xDBFF && 0xDC00 <= ws[1] <= 0xDFFF
    // a pair reads as a code point beyond the basic plane
    ensures r.1 == 2 ==> 0x1_0000 <= r.0 <= 0x10FFFF
    // a unit that is not a high surrogate is its own code point
    ensures w == Wide32 || !(0xD800 <= ws[0] <= 0xDBFF) ==> r == (ws[0], 1)
  {
    if w == Wide32 || !(0xD800 <= ws[0] <= 0xDBFF) then (ws[0], 1)
    else if |ws| >= 2 && 0xDC00 <= ws[1] <= 0xDFFF then
      ((ws[0] - 0xD800) * 0x400 + (ws[1] - 0xDC00) + 0x1_0000, 2)
    else (0, 1)
  }

  /** `ToString`: encode each code point of the wide string as UTF-8. */
  function ToString(w: WCharWidth, ws: seq<nat>): (r: seq<Byte>)
    // at most four bytes per unit
    ensures |r| <= 4 * |ws|
    // an ASCII wide string comes out byte for byte
    ensures (forall k :: 0 <= k < |ws| ==> ws[k] < 0x80) ==> r == ws
    decreases |ws|
  {
    if |ws| == 0 then []
    else
      var (cp, n) := CodePointAt(w, ws);
      Encode(cp) + ToString(w, ws[n..])
  }

  lemma UnpairedHighReadsZero(ws: seq<nat>)
    requires |ws| > 0 && 0xD800 <= ws[0] <= 0xDBFF
    requires |ws| == 1 || !(0xDC00 <= ws[1] <= 0xDFFF)
    ensures CodePointAt(Wide16, ws) == (0, 1)
  {
  }

  /** One step of `ToString`, as a rewrite rule. */
  lemma ToStringStep(w: WCharWidth, ws: seq<nat>)
    requires |ws| > 0
    ensures ToString(w, ws) == Encode(CodePointAt(w, ws).0) + ToString(w, ws[CodePointAt(w, ws).1..])
  {
  }

  // ---------------------------------------------------------------------
  // Round trips

  /** A code point both directions carry unchanged: within Unicode's
      range, and with 16-bit `wchar_t` not a high surrogate (which the
      encoder would try to pair with the unit after it). */
  predicate Representable(w: WCharWidth, cp: nat) {
    cp <= 0x10FFFF && (w == Wide16 ==> !(0xD800 <= cp <= 0xDBFF))
  }

  /** Reference encodings of a code point sequence. */
  function Utf8(cps: seq<nat>): seq<Byte> {
    if |cps| == 0 then [] else Encode(cps[0]) + Utf8(cps[1..])
  }

  function Widen(w: WCharWidth, cps: seq<nat>): seq<nat> {
    if |cps| == 0 then [] else Emit(w, cps[0]) + Widen(w, cps[1..])
  }

  /** Decoding the bytes of one code point gives that code point back. */
  lemma PayloadOfEncode(cp: nat)
    requires cp <= 0x10FFFF
    ensures Payload(Encode(cp), |Encode(cp)|) == cp
  {
    if cp <= 0x7F {
    } else if cp <= 0x7FF {
      PayloadOfEncode2(cp);
    } else if cp <= 0xFFFF {
      PayloadOfEncode3(cp);
    } else {
      PayloadOfEncode4(cp);
    }
  }

  lemma PayloadOfEncode2(cp: nat)
    requires 0x7F < cp <= 0x7FF
    ensures Payload(Encode(cp), 2) == cp
  {
    var e := Encode(cp);
    DivModParts(cp, 0x40, 0x20);
    assert e[0] % 0x20 == cp / 0x40;
    assert e[1] % 0x40 == cp % 0x40;
  }

  lemma PayloadOfEncode3(cp: nat)
    requires 0x7FF < cp <= 0xFFFF
    ensures Payload(Encode(cp), 3) == cp
  {
    var e := Encode(cp);
    var hi := cp / 0x40;
    DivModParts(cp, 0x40, 0x400);
    DivModParts(hi, 0x40, 0x10);
    DivDiv(cp, 0x40, 0x40);
    assert e[0] % 0x10 == hi / 0x40;
    assert e[1] % 0x40 == hi % 0x40;
    assert e[2] % 0x40 == cp % 0x40;
  }

  lemma PayloadOfEncode4(cp: nat)
    requires 0xFFFF < cp <= 0x10FFFF
    ensures Payload(Encode(cp), 4) == cp
  {
    var d0, d1, d2, d3 := Digits4(cp);
    Encode4Digits(cp, d0, d1, d2, d3);
    PayloadOfDigits4(d0, d1, d2, d3);
  }

  lemma PayloadOfDigits4(d0: nat, d1: nat, d2: nat, d3: nat)
    requires d0 < 0x40 && d1 < 0x40 && d2 < 0x40 && d3 < 0x08
    ensures Payload([0xF0 + d3, 0x80 + d2, 0x80 + d1, 0x80 + d0], 4)
         == d3 * 0x4_0000 + d2 * 0x1000 + d1 * 0x40 + d0
  {
  }

  /** The base-64 digits of a four-byte code point. */
  lemma Digits4(cp: nat) returns (d0: nat, d1: nat, d2: nat, d3: nat)
    requires cp < 0x20_0000
    ensures d0 == cp % 0x40 && d1 == cp / 0x40 % 0x40 && d2 == cp / 0x40 / 0x40 % 0x40
    ensures d3 == cp / 0x40 / 0x40 / 0x40 && d3 < 0x08
    ensures cp == d3 * 0x4_0000 + d2 * 0x1000 + d1 * 0x40 + d0
  {
    var hi := cp / 0x40;
    var top := hi / 0x40;
    d0, d1, d2, d3 := cp % 0x40, hi % 0x40, top % 0x40, top / 0x40;
    DivModParts(cp, 0x40, 0x8000);
    DivModParts(hi, 0x40, 0x200);
    DivModParts(top, 0x40, 0x08);
  }

  lemma Encode4Digits(cp: nat, d0: nat, d1: nat, d2: nat, d3: nat)
    requires 0xFFFF < cp <= 0x10FFFF
    requires d0 == cp % 0x40 && d1 == cp / 0x40 % 0x40 && d2 == cp / 0x40 / 0x40 % 0x40
    requires d3 == cp / 0x40 / 0x40 / 0x40 && d3 < 0x08
    ensures Encode(cp) == [0xF0 + d3, 0x80 + d2, 0x80 + d1, 0x80 + d0]
  {
    DivDiv(cp, 0x40, 0x40);
    DivDiv(cp / 0x40, 0x40, 0x40);
    DivDiv(cp, 0x1000, 0x40);
    assert cp / 0x40 / 0x40 / 0x40 == cp / 0x4_0000;
  }

  /** `x` split into its quotient and remainder by `d`, when the quotient
      is below `q`. */
  lemma DivModParts(x: nat, d: nat, q: nat)
    requires 0 < d && 0 < q && x < d * q
    ensures x / d < q && x == (x / d) * d + x % d
    ensures (x / d) % q == x / d
  {
    assert (x / d) * d <= x;
    MulStrict(x / d, q, d);
  }

  lemma MulStrict(t: int, q: int, d: int)
    requires d > 0 && t * d < q * d
    ensures t < q
  {
  }

  /** Dividing twice is dividing by the product. */
  lemma DivDiv(x: nat, a: nat, b: nat)
    requires 0 < a && 0 < b
    ensures x / a / b == x / (a * b)
  {
    var qa, ra := x / a, x % a;
    var q, rb := qa / b, qa % b;
    assert x == qa * a + ra;
    assert qa == q * b + rb;
    Regroup(q, b, rb, a, ra);
    RemainderBound(rb, b, a, ra);
    DivUnique(x, a * b, q, rb * a + ra);
  }

  lemma Regroup(q: nat, b: nat, rb: nat, a: nat, ra: nat)
    ensures (q * b + rb) * a + ra == q * (a * b) + (rb * a + ra)
  {
  }

  lemma RemainderBound(rb: nat, b: nat, a: nat, ra: nat)
    requires rb < b && ra < a
    ensures rb * a + ra < a * b
  {
    MulLe(rb, b - 1, a);
  }

  lemma MulLe(p: nat, q: nat, a: nat)
    requires p <= q
    ensures p * a <= q * a
  {
  }

  lemma DivUnique(x: nat, m: nat, q: nat, r: nat)
    requires 0 < m && r < m && x == q * m + r
    ensures x / m == q
  {
    var q' := x / m;
    var r' := x % m;
    assert (q - q') * m == r' - r;
    if q > q' {
      MulLe(1, q - q', m);
    } else if q < q' {
      MulLe(1, q' - q, m);
    }
  }

  lemma {:induction false} ToWideStringOfEncode(w: WCharWidth, cp: nat, rest: seq<Byte>)
    requires cp <= 0x10FFFF
    ensures ToWideString(w, Encode(cp) + rest) == Emit(w, cp) + ToWideString(w, rest)
  {
    var e := Encode(cp);
    var s := e + rest;
    PayloadOfEncode(cp);
    assert s[..|e|] == e;
    assert s[|e|..] == rest;
    PayloadPrefix(s, e);
  }

  lemma PayloadPrefix(s: seq<Byte>, e: seq<Byte>)
    requires 1 <= |e| <= 4 && e <= s
    ensures Payload(s, |e|) == Payload(e, |e|)
  {
  }

  /** Decoding the UTF-8 of a code point sequence yields its wide form. */
  lemma {:induction false} ToWideStringOfUtf8(w: WCharWidth, cps: seq<nat>)
    requires forall k :: 0 <= k < |cps| ==> cps[k] <= 0x10FFFF
    ensures ToWideString(w, Utf8(cps)) == Widen(w, cps)
  {
    if |cps| > 0 {
      ToWideStringOfEncode(w, cps[0], Utf8(cps[1..]));
      ToWideStringOfUtf8(w, cps[1..]);
    }
  }

  lemma {:induction false} ToStringOfEmit(w: WCharWidth, cp: nat, rest: seq<nat>)
    requires Representable(w, cp)
    ensures ToString(w, Emit(w, cp) + rest) == Encode(cp) + ToString(w, rest)
  {
    var e := Emit(w, cp);
    var ws := e + rest;
    assert ws[..|e|] == e;
    assert ws[|e|..] == rest;
    ToStringStep(w, ws);
    if w == Wide16 && cp > 0xFFFF {
      var v := cp - 0x1_0000;
      assert v == (v / 0x400) * 0x400 + v % 0x400;
      assert ws[0] == v / 0x400 + 0xD800 && ws[1] == v % 0x400 + 0xDC00;
      assert v / 0x400 < 0x400;
      assert CodePointAt(w, ws) == (cp, 2);
    } else {
      assert CodePointAt(w, ws) == (cp, 1);
    }
  }

  /** Encoding the wide form of a code point sequence yields its UTF-8. */
  lemma {:induction false} ToStringOfWiden(w: WCharWidth, cps: seq<nat>)
    requires forall k :: 0 <= k < |cps| ==> Representable(w, cps[k])
    ensures ToString(w, Widen(w, cps)) == Utf8(cps)
  {
    if |cps| > 0 {
      ToStringOfEmit(w, cps[0], Widen(w, cps[1..]));
      ToStringOfWiden(w, cps[1..]);
    }
  }

  /** UTF-8 to wide and back returns the same bytes. */
  lemma Utf8RoundTrip(w: WCharWidth, cps: seq<nat>)
    requires forall k :: 0 <= k < |cps| ==> Representable(w, cps[k])
    ensures ToString(w, ToWideString(w, Utf8(cps))) == Utf8(cps)
  {
    ToWideStringOfUtf8(w, cps);
    ToStringOfWiden(w, cps);
  }

  /** Wide to UTF-8 and back returns the same units. */
  lemma WideRoundTrip(w: WCharWidth, cps: seq<nat>)
    requires forall k :: 0 <= k < |cps| ==> Representable(w, cps[k])
    ensures ToWideString(w, ToString(w, Widen(w, cps))) == Widen(w, cps)
  {
    ToStringOfWiden(w, cps);
    ToWideStringOfUtf8(w, cps);
  }

  /** With 32-bit `wchar_t` every unit is its own code point, so any wide
      string of Unicode-range units survives the round trip. */
  lemma {:induction false} WideRoundTrip32(ws: seq<nat>)
    requires forall k :: 0 <= k < |ws| ==> ws[k] <= 0x10FFFF
    ensures ToWideString(Wide32, ToString(Wide32, ws)) == ws
  {
    WidenWide32(ws);
    WideRoundTrip(Wide32, ws);
  }

  lemma {:induction false} WidenWide32(ws: seq<nat>)
    ensures Widen(Wide32, ws) == ws
  {
    if |ws| > 0 {
      WidenWide32(ws[1..]);
      assert ws == [ws[0]] + ws[1..];
    }
  }

  // ---------------------------------------------------------------------
  // Malformed input

  /** A byte that leads no sequence is dropped. */
  lemma SkipsStrayByte(w: WCharWidth, b: Byte, rest: seq<Byte>)
    requires 0x80 <= b < 0xC0 || 0xF8 <= b
    ensures ToWideString(w, [b] + rest) == ToWideString(w, rest)
  {
    assert ([b] + rest)[1..] == rest;
  }

  /** A lead byte whose sequence runs past the end stops the decoding and
      drops what follows it. */
  lemma TruncatedSequenceStops(w: WCharWidth, s: seq<Byte>)
    requires |s| > 0 && |s| < SequenceLength(s[0])
    ensures ToWideString(w, s) == []
  {
  }

  /** With 16-bit `wchar_t` a high surrogate without a low partner is
      written as a NUL byte. */
  lemma LoneHighSurrogate(u: nat, rest: seq<nat>)
    requires 0xD800 <= u <= 0xDBFF
    requires |rest| == 0 || !(0xDC00 <= rest[0] <= 0xDFFF)
    ensures ToString(Wide16, [u] + rest) == [0] + ToString(Wide16, rest)
  {
    var ws := [u] + rest;
    assert |ws| >= 2 ==> ws[1] == rest[0];
    UnpairedHighReadsZero(ws);
    assert ws[1..] == rest;
    ToStringStep(Wide16, ws);
    assert Encode(0) == [0];
  }

  /** With 32-bit `wchar_t` a unit beyond Unicode's range is dropped. */
  lemma OutOfRangeUnitDropped(u: nat, rest: seq<nat>)
    requires u > 0x10FFFF
    ensures ToString(Wide32, [u] + rest) == ToString(Wide32, rest)
  {
    assert ([u] + rest)[1..] == rest;
  }

  // ---------------------------------------------------------------------
  // Case mapping in the "C" locale

  function UpperByte(c: Byte): Byte {
    if 'a' as int <= c <= 'z' as int then c - 0x20 else c
  }

  function LowerByte(c: Byte): Byte {
    if 'A' as int <= c <= 'Z' as int then c + 0x20 else c
  }

  /** `ToUpper`: every ASCII lower-case letter becomes upper-case; every
      other byte, including those of multi-byte UTF-8, is kept. */
  function ToUpper(s: seq<Byte>): (r: seq<Byte>)
    ensures |r| == |s|
    ensures forall k :: 0 <= k < |s| ==> !('a' as int <= r[k] <= 'z' as int)
    ensures forall k :: 0 <= k < |s| ==> r[k] != s[k] ==> 'a' as int <= s[k] <= 'z' as int && r[k] == s[k] - 0x20
  {
    seq(|s|, k requires 0 <= k < |s| => UpperByte(s[k]))
  }

  /** `ToLower`: the mirror image of `ToUpper`. */
  function ToLower(s: seq<Byte>): (r: seq<Byte>)
    ensures |r| == |s|
    ensures forall k :: 0 <= k < |s| ==> !('A' as int <= r[k] <= 'Z' as int)
    ensures forall k :: 0 <= k < |s| ==> r[k] != s[k] ==> 'A' as int <= s[k] <= 'Z' as int && r[k] == s[k] + 0x20
  {
    seq(|s|, k requires 0 <= k < |s| => LowerByte(s[k]))
  }

  lemma ToUpperIdempotent(s: seq<Byte>)
    ensures ToUpper(ToUpper(s)) == ToUpper(s)
  {
  }

  /** Lower-casing forgets any earlier upper-casing, and the other way
      round. */
  lemma CaseMappingsAbsorb(s: seq<Byte>)
    ensures ToLower(ToUpper(s)) == ToLower(s)
    ensures ToUpper(ToLower(s)) == ToUpper(s)
  {
  }

  // ---------------------------------------------------------------------
  // FNV-1a, 64-bit

  const FnvOffsetBasis: bv64 := 14695981039346656037
  const FnvPrime: bv64 := 1099511628211

  /** One round: mix in the byte, then multiply modulo 2^64. */
  function FnvStep(h: bv64, c: Byte): bv64 {
    (h ^ (c as bv64)) * FnvPrime
  }

  /** The hash state after absorbing `s`, starting from `h`. */
  function FnvFold(h: bv64, s: seq<Byte>): bv64
    decreases |s|
  {
    if |s| == 0 then h else FnvFold(FnvStep(h, s[0]), s[1..])
  }

  /** Absorbing a concatenation is absorbing its parts in turn, so a hash
      can be extended byte by byte. */
  lemma {:induction false} FnvFoldAppend(h: bv64, a: seq<Byte>, b: seq<Byte>)
    ensures FnvFold(h, a + b) == FnvFold(FnvFold(h, a), b)
    decreases |a|
  {
    if |a| > 0 {
      var h' := FnvStep(h, a[0]);
      assert (a + b)[0] == a[0];
      assert (a + b)[1..] == a[1..] + b;
      assert FnvFold(h, a + b) == FnvFold(h', a[1..] + b);
      assert FnvFold(h, a) == FnvFold(h', a[1..]);
      FnvFoldAppend(h', a[1..], b);
    } else {
      assert a + b == b;
    }
  }

  /** `Hash`: the loop of the source, byte by byte from the offset basis. */
  method Hash(input: seq<Byte>) returns (h: bv64)
    ensures h == FnvFold(FnvOffsetBasis, input)
  {
    h := FnvOffsetBasis;
    for i := 0 to |input|
      invariant FnvFold(h, input[i..]) == FnvFold(FnvOffsetBasis, input)
    {
      assert input[i..] == [input[i]] + input[i + 1..];
      h := FnvStep(h, input[i]);
    }
  }

  /** The published FNV-1a 64 test vectors for "" and "a". */
  lemma FnvVectors()
    ensures FnvFold(FnvOffsetBasis, []) == 0xcbf29ce484222325
    ensures FnvFold(FnvOffsetBasis, ['a' as int]) == 0xaf63dc4c8601ec8c
  {
    var mixed: bv64 := 0xcbf29ce484222344;
    assert FnvOffsetBasis ^ (0x61 as bv64) == mixed;
    assert mixed * FnvPrime == 0xaf63dc4c8601ec8c;
    assert FnvStep(FnvOffsetBasis, 0x61) == mixed * FnvPrime;
    assert FnvFold(FnvStep(FnvOffsetBasis, 0x61), []) == FnvStep(FnvOffsetBasis, 0x61);
  }
}
