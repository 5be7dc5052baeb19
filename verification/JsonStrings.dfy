/** JSON strings: what a string literal means, and how `json11` writes one.

    The meaning is given in two stages: `Scan` (in JsonGrammar) turns the literal into
    units, either raw bytes or escaped UTF-16 code units; `Assemble` pairs adjacent escaped
    surrogates and encodes the rest one by one. */
module JsonStrings {
  import opened Bytes

  const QUOTE: byte := 0x22
  const BACKSLASH: byte := 0x5C

  type u16 = n: int | 0 <= n < 0x1_0000
  type PendingCode = n: int | -1 <= n < 0x1_0000

  datatype Unit = Raw(b: byte) | Esc(code: u16)

  predicate IsHigh(code: int) {
    0xD800 <= code <= 0xDBFF
  }

  predicate IsLow(code: int) {
    0xDC00 <= code <= 0xDFFF
  }

  /** Section 2.1 of RFC 2781. */
  function Pair(high: nat, low: nat): (pt: nat)
    requires IsHigh(high) && IsLow(low)
    ensures 0x1_0000 <= pt < 0x11_0000
  {
    (high - 0xD800) * 0x400 + (low - 0xDC00) + 0x1_0000
  }

  /** `encode_utf8`, whose shifts and masks are the quotients and remainders here; a
      negative code point adds nothing. */
  function EncodeUtf8(pt: int): seq<byte>
    requires pt < 0x11_0000
  {
    if pt < 0 then []
    else if pt < 0x80 then [pt]
    else if pt < 0x800 then [0xC0 + pt / 0x40, 0x80 + pt % 0x40]
    else if pt < 0x1_0000 then [0xE0 + pt / 0x1000, 0x80 + pt / 0x40 % 0x40, 0x80 + pt % 0x40]
    else [0xF0 + pt / 0x4_0000, 0x80 + pt / 0x1000 % 0x40, 0x80 + pt / 0x40 % 0x40, 0x80 + pt % 0x40]
  }

  /** What a sequence of units stands for: surrogates are paired greedily, left to right,
      and only when both are escaped and adjacent. */
  function Assemble(units: seq<Unit>): seq<byte> {
    if units == [] then []
    else if units[0].Raw? then [units[0].b] + Assemble(units[1..])
    else if IsHigh(units[0].code) && |units| > 1 && units[1].Esc? && IsLow(units[1].code) then
      EncodeUtf8(Pair(units[0].code, units[1].code)) + Assemble(units[2..])
    else EncodeUtf8(units[0].code) + Assemble(units[1..])
  }

  /* ---- UTF-8 ------------------------------------------------------------------- */

  predicate IsScalar(pt: int) {
    0 <= pt < 0x11_0000 && !IsHigh(pt) && !IsLow(pt)
  }

  predicate IsTail(b: byte) {
    0x80 <= b <= 0xBF
  }

  datatype Decoded = NotUtf8 | Scalar(pt: nat, len: nat)

  /** The first character of a byte string by the syntax of section 4 of RFC 3629. */
  function DecodeUtf8(s: seq<byte>): Decoded {
    if s == [] then NotUtf8
    else
      var b := s[0];
      if b <= 0x7F then Scalar(b, 1)
      else if 0xC2 <= b <= 0xDF && |s| >= 2 && IsTail(s[1]) then
        Scalar((b as int - 0xC0) * 0x40 + (s[1] as int - 0x80), 2)
      else if 0xE0 <= b <= 0xEF && |s| >= 3 && IsTail(s[1]) && IsTail(s[2])
              && (b == 0xE0 ==> s[1] >= 0xA0) && (b == 0xED ==> s[1] <= 0x9F) then
        Scalar((b as int - 0xE0) * 0x1000 + (s[1] as int - 0x80) * 0x40 + (s[2] as int - 0x80), 3)
      else if 0xF0 <= b <= 0xF4 && |s| >= 4 && IsTail(s[1]) && IsTail(s[2]) && IsTail(s[3])
              && (b == 0xF0 ==> s[1] >= 0x90) && (b == 0xF4 ==> s[1] <= 0x8F) then
        Scalar((b as int - 0xF0) * 0x4_0000 + (s[1] as int - 0x80) * 0x1000 + (s[2] as int - 0x80) * 0x40
          + (s[3] as int - 0x80), 4)
      else NotUtf8
  }

  /** The encoder writes exactly the RFC 3629 form of every scalar value. */
  lemma Utf8RoundTrip(pt: nat, rest: seq<byte>)
    requires IsScalar(pt)
    ensures DecodeUtf8(EncodeUtf8(pt) + rest) == Scalar(pt, |EncodeUtf8(pt)|)
  {
    if pt < 0x80 {
    } else if pt < 0x800 {
      Utf8Two(pt, rest);
    } else if pt < 0x1_0000 {
      Utf8Three(pt, rest);
    } else {
      Utf8Four(pt, rest);
    }
  }

  lemma Utf8Two(pt: nat, rest: seq<byte>)
    requires 0x80 <= pt < 0x800
    ensures DecodeUtf8(EncodeUtf8(pt) + rest) == Scalar(pt, 2)
  {
    var s := EncodeUtf8(pt) + rest;
    assert s[0] == 0xC0 + pt / 0x40 && s[1] == 0x80 + pt % 0x40;
  }

  lemma Utf8Three(pt: nat, rest: seq<byte>)
    requires 0x800 <= pt < 0x1_0000 && IsScalar(pt)
    ensures DecodeUtf8(EncodeUtf8(pt) + rest) == Scalar(pt, 3)
  {
    var s := EncodeUtf8(pt) + rest;
    var q1, q2 := pt / 0x40, pt / 0x1000;
    assert q2 == q1 / 0x40;
    assert s[0] == 0xE0 + q2 && s[1] == 0x80 + q1 % 0x40 && s[2] == 0x80 + pt % 0x40;
  }

  lemma Utf8Four(pt: nat, rest: seq<byte>)
    requires 0x1_0000 <= pt < 0x11_0000
    ensures DecodeUtf8(EncodeUtf8(pt) + rest) == Scalar(pt, 4)
  {
    var s := EncodeUtf8(pt) + rest;
    var q1, q2, q3 := pt / 0x40, pt / 0x1000, pt / 0x4_0000;
    assert q2 == q1 / 0x40 && q3 == q2 / 0x40;
    assert s[0] == 0xF0 + q3 && s[1] == 0x80 + q2 % 0x40 && s[2] == 0x80 + q1 % 0x40 && s[3] == 0x80 + pt % 0x40;
  }

  /** The escapes of a scalar value: one code unit, or a surrogate pair. */
  function Escapes(pt: nat): seq<Unit>
    requires IsScalar(pt)
  {
    if pt < 0x1_0000 then [Esc(pt)]
    else [Esc(0xD800 + (pt - 0x1_0000) / 0x400), Esc(0xDC00 + (pt - 0x1_0000) % 0x400)]
  }

  /* ---- the deferred code point -------------------------------------------------- */

  /** `parse_string`'s two accumulators: what it has appended to `out`, and the escaped
      code point it is still holding back (`-1` for none). */
  datatype Accumulator = Accumulator(out: seq<byte>, last: PendingCode)

  /** The loop body of `parse_string` on one unit. */
  function Accept(acc: Accumulator, u: Unit): Accumulator {
    match u
    case Raw(b) => Accumulator(acc.out + EncodeUtf8(acc.last) + [b], -1)
    case Esc(code) =>
      if IsHigh(acc.last) && IsLow(code) then Accumulator(acc.out + EncodeUtf8(Pair(acc.last, code)), -1)
      else Accumulator(acc.out + EncodeUtf8(acc.last), code)
  }

  /** What the loop still holds back, as units not yet assembled. */
  function Pending(acc: Accumulator): seq<Unit> {
    if acc.last < 0 then [] else [Esc(acc.last)]
  }

  /** One step of the loop moves one unit from the input into the accumulators without
      changing what the whole will assemble to. */
  lemma AcceptAssembles(acc: Accumulator, u: Unit, rest: seq<Unit>)
    ensures acc.out + Assemble(Pending(acc) + ([u] + rest))
            == Accept(acc, u).out + Assemble(Pending(Accept(acc, u)) + rest)
  {
    NothingHeld();
    hide EncodeUtf8, Pair;
    assert ([u] + rest)[1..] == rest && [] + rest == rest && [] + ([u] + rest) == [u] + rest;
    if acc.last >= 0 {
      AssembleHeld(acc.last, u, rest);
    }
    if u.Raw? {
      AcceptRaw(acc, u.b, rest);
    } else {
      AcceptEscaped(acc, u.code, rest);
    }
  }

  lemma AcceptRaw(acc: Accumulator, b: byte, rest: seq<Unit>)
    requires Assemble(Pending(acc) + ([Raw(b)] + rest)) == EncodeUtf8(acc.last) + Assemble([Raw(b)] + rest)
    ensures acc.out + Assemble(Pending(acc) + ([Raw(b)] + rest))
            == Accept(acc, Raw(b)).out + Assemble(Pending(Accept(acc, Raw(b))) + rest)
  {
    hide EncodeUtf8, Pair;
    assert ([Raw(b)] + rest)[1..] == rest && [] + rest == rest;
    assert Assemble([Raw(b)] + rest) == [b] + Assemble(rest);
    assert acc.out + (EncodeUtf8(acc.last) + ([b] + Assemble(rest)))
             == acc.out + EncodeUtf8(acc.last) + [b] + Assemble(rest);
  }

  lemma AcceptEscaped(acc: Accumulator, code: u16, rest: seq<Unit>)
    requires Assemble(Pending(acc) + ([Esc(code)] + rest))
             == if IsHigh(acc.last) && IsLow(code) then EncodeUtf8(Pair(acc.last, code)) + Assemble(rest)
                else EncodeUtf8(acc.last) + Assemble([Esc(code)] + rest)
    ensures acc.out + Assemble(Pending(acc) + ([Esc(code)] + rest))
            == Accept(acc, Esc(code)).out + Assemble(Pending(Accept(acc, Esc(code))) + rest)
  {
    hide EncodeUtf8, Pair, Assemble;
    var front := if IsHigh(acc.last) && IsLow(code) then EncodeUtf8(Pair(acc.last, code)) else EncodeUtf8(acc.last);
    var tail := if IsHigh(acc.last) && IsLow(code) then Assemble(rest) else Assemble([Esc(code)] + rest);
    assert [] + rest == rest;
    assert acc.out + (front + tail) == acc.out + front + tail;
  }

  lemma NothingHeld()
    ensures EncodeUtf8(-1) == []
  {
  }

  /** Assembly with one escaped code unit in front. */
  lemma AssembleHeld(code: u16, u: Unit, rest: seq<Unit>)
    ensures Assemble([Esc(code)] + ([u] + rest))
            == if IsHigh(code) && u.Esc? && IsLow(u.code) then EncodeUtf8(Pair(code, u.code)) + Assemble(rest)
               else EncodeUtf8(code) + Assemble([u] + rest)
  {
    var all := [Esc(code)] + ([u] + rest);
    assert all[1..] == [u] + rest;
    assert all[2..] == rest;
  }

  /* ---- writing ------------------------------------------------------------------- */

  function HexDigit(n: nat): byte
    requires n < 16
  {
    if n < 10 then 0x30 + n else 0x61 + (n - 10)
  }

  /** The `\u%04x` form of a code unit. */
  function UnicodeEscape(code: nat): (e: seq<byte>)
    requires code < 0x1_0000
    ensures |e| == 6
  {
    [BACKSLASH, 0x75,
     HexDigit(code / 0x1000), HexDigit(code / 0x100 % 16), HexDigit(code / 0x10 % 16), HexDigit(code % 16)]
  }

  /** Byte `k` of a C++ string; reading at its length yields NUL. */
  function ByteAt(s: seq<byte>, k: nat): byte {
    if k < |s| then s[k] else 0
  }

  /** Whether U+2028 (`low == 0xA8`) or U+2029 (`low == 0xA9`) starts here in UTF-8. */
  predicate IsSeparator(s: seq<byte>, low: byte)
    requires low != 0
  {
    ByteAt(s, 0) == 0xE2 && ByteAt(s, 1) == 0x80 && ByteAt(s, 2) == low
  }

  /** What `dump` writes for the first byte (or the line separator) of a non-empty
      string, and how many bytes that covers. */
  function Escaped(s: seq<byte>): (r: (seq<byte>, nat))
    requires s != []
    ensures 1 <= r.1 <= |s| && 1 <= |r.0|
  {
    var ch := s[0];
    if ch == BACKSLASH then ([BACKSLASH, BACKSLASH], 1)
    else if ch == QUOTE then ([BACKSLASH, QUOTE], 1)
    else if ch == 8 then ([BACKSLASH, 0x62], 1)
    else if ch == 12 then ([BACKSLASH, 0x66], 1)
    else if ch == 10 then ([BACKSLASH, 0x6E], 1)
    else if ch == 13 then ([BACKSLASH, 0x72], 1)
    else if ch == 9 then ([BACKSLASH, 0x74], 1)
    else if ch <= 0x1F then (UnicodeEscape(ch), 1)
    else if IsSeparator(s, 0xA8) then (UnicodeEscape(0x2028), 3)
    else if IsSeparator(s, 0xA9) then (UnicodeEscape(0x2029), 3)
    else ([ch], 1)
  }

  function DumpBody(s: seq<byte>): seq<byte>
    decreases |s|
  {
    if s == [] then [] else Escaped(s).0 + DumpBody(s[Escaped(s).1..])
  }

  /** `dump(const string &)`. */
  function DumpString(s: seq<byte>): seq<byte> {
    [QUOTE] + DumpBody(s) + [QUOTE]
  }
}
