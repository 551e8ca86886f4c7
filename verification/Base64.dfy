/** The unpadded URL-safe encoding of section 5 of RFC 4648, with the decoder of Go's
    base64.RawURLEncoding: CR and LF are skipped and unused trailing bits are ignored. */
module Base64 {
  import opened Sequences

  type sextet = v: int | 0 <= v < 64

  function Symbol(v: sextet): (c: byte)
    ensures Value(c) == v
  {
    if v < 26 then (0x41 + v) as byte
    else if v < 52 then (0x61 + v - 26) as byte
    else if v < 62 then (0x30 + v - 52) as byte
    else if v == 62 then 0x2d
    else 0x5f
  }

  /** The 6-bit value of a symbol, or -1. */
  function Value(c: byte): (v: int)
    ensures -1 <= v < 64
    ensures v >= 0 ==> c != 0x1b && c != 0x07 && c != 0x0a && c != 0x0d
  {
    if 0x41 <= c <= 0x5a then c as int - 0x41
    else if 0x61 <= c <= 0x7a then c as int - 0x61 + 26
    else if 0x30 <= c <= 0x39 then c as int - 0x30 + 52
    else if c == 0x2d then 62
    else if c == 0x5f then 63
    else -1
  }

  /** Regroup bytes into 6-bit values, the last one filled up with zero bits. */
  function Sextets(data: seq<byte>): (s: seq<sextet>)
    ensures |s| == (4 * |data| + 2) / 3
  {
    if |data| == 0 then []
    else
      var a := data[0] as int;
      if |data| == 1 then [a / 4, a % 4 * 16]
      else
        var b := data[1] as int;
        if |data| == 2 then [a / 4, a % 4 * 16 + b / 16, b % 16 * 4]
        else
          var c := data[2] as int;
          [a / 4, a % 4 * 16 + b / 16, b % 16 * 4 + c / 64, c % 64] + Sextets(data[3..])
  }

  /** Regroup 6-bit values into bytes; a single value left over is an error. */
  function Bytes(s: seq<sextet>): Option<seq<byte>> {
    if |s| == 0 then Some([])
    else if |s| == 1 then None
    else
      var v0: int, v1: int := s[0], s[1];
      var first := (v0 * 4 + v1 / 16) as byte;
      if |s| == 2 then Some([first])
      else
        var v2: int := s[2];
        var second := (v1 % 16 * 16 + v2 / 4) as byte;
        if |s| == 3 then Some([first, second])
        else
          var v3: int := s[3];
          var third := (v2 % 4 * 64 + v3) as byte;
          match Bytes(s[4..])
          case None => None
          case Some(rest) => Some([first, second, third] + rest)
  }

  function Encode(data: seq<byte>): (s: seq<byte>)
    ensures |s| == (4 * |data| + 2) / 3
    ensures forall k :: 0 <= k < |s| ==> Value(s[k]) >= 0
  {
    var values := Sextets(data);
    seq(|values|, i requires 0 <= i < |values| => Symbol(values[i]))
  }

  function WithoutNewlines(s: seq<byte>): (r: seq<byte>)
    ensures |r| <= |s|
    ensures (forall k :: 0 <= k < |s| ==> s[k] != 0x0a && s[k] != 0x0d) ==> r == s
  {
    if s == [] then []
    else if s[0] == 0x0a || s[0] == 0x0d then WithoutNewlines(s[1..])
    else [s[0]] + WithoutNewlines(s[1..])
  }

  function Decode(s: seq<byte>): Option<seq<byte>> {
    DecodedSymbols(WithoutNewlines(s))
  }

  function DecodedSymbols(symbols: seq<byte>): Option<seq<byte>> {
    if exists k :: 0 <= k < |symbols| && Value(symbols[k]) < 0 then None
    else Bytes(seq(|symbols|, i requires 0 <= i < |symbols| && Value(symbols[i]) >= 0 => Value(symbols[i])))
  }

  /** Three bytes regrouped as four 6-bit values and back. */
  lemma GroupRoundTrip(a: int, b: int, c: int)
    requires 0 <= a < 256 && 0 <= b < 256 && 0 <= c < 256
    ensures a / 4 * 4 + (a % 4 * 16 + b / 16) / 16 == a
    ensures (a % 4 * 16 + b / 16) % 16 * 16 + (b % 16 * 4 + c / 64) / 4 == b
    ensures (b % 16 * 4 + c / 64) % 4 * 64 + c % 64 == c
  {
  }

  lemma SingleRoundTrip(a: byte)
    ensures Bytes(Sextets([a])) == Some([a])
  {
    var x := a as int;
    GroupRoundTrip(x, 0, 0);
    assert Sextets([a]) == [x / 4, x % 4 * 16];
  }

  lemma PairRoundTrip(a: byte, b: byte)
    ensures Bytes(Sextets([a, b])) == Some([a, b])
  {
    var x, y := a as int, b as int;
    GroupRoundTrip(x, y, 0);
    var s := Sextets([a, b]);
    assert s == [x / 4, x % 4 * 16 + y / 16, y % 16 * 4];
    assert Bytes(s) == Some([(s[0] as int * 4 + s[1] as int / 16) as byte,
                             (s[1] as int % 16 * 16 + s[2] as int / 4) as byte]);
  }

  lemma {:induction false} SextetsRoundTrip(data: seq<byte>)
    ensures Bytes(Sextets(data)) == Some(data)
  {
    if |data| == 1 {
      SingleRoundTrip(data[0]);
      assert data == [data[0]];
    } else if |data| == 2 {
      PairRoundTrip(data[0], data[1]);
      assert data == [data[0], data[1]];
    } else if |data| > 2 {
      GroupRoundTrip(data[0] as int, data[1] as int, data[2] as int);
      SextetsRoundTrip(data[3..]);
      assert Sextets(data)[4..] == Sextets(data[3..]);
      assert data == [data[0], data[1], data[2]] + data[3..];
    }
  }

  /** Decoding undoes encoding for every byte string, whatever its length modulo 3. */
  lemma RoundTrip(data: seq<byte>)
    ensures Decode(Encode(data)) == Some(data)
  {
    var s := Encode(data);
    assert WithoutNewlines(s) == s;
    assert seq(|s|, i requires 0 <= i < |s| && Value(s[i]) >= 0 => Value(s[i])) == Sextets(data);
    SextetsRoundTrip(data);
  }

  lemma {:induction false} NewlinesOnlyDropped(s: seq<byte>, k: int)
    requires 0 <= k < |s| && s[k] != 0x0a && s[k] != 0x0d
    ensures s[k] in WithoutNewlines(s)
  {
    if k > 0 {
      NewlinesOnlyDropped(s[1..], k - 1);
    }
  }

  /** Text that decodes holds symbols and line breaks only, so no ESC and no BEL. */
  lemma DecodableText(s: seq<byte>, k: int)
    requires Decode(s).Some? && 0 <= k < |s|
    ensures s[k] != 0x1b && s[k] != 0x07
  {
    if s[k] != 0x0a && s[k] != 0x0d {
      NewlinesOnlyDropped(s, k);
    }
  }

  // ---- Against the tables of RFC 4648 ----

  const UPPER: string := "ABCDEFGHIJKLMNOPQRSTUVWXYZ"
  const LOWER: string := "abcdefghijklmnopqrstuvwxyz"
  const DIGITS: string := "0123456789"

  /** The URL and filename safe alphabet (table 2 in section 5 of RFC 4648). */
  const ALPHABET: string := UPPER + LOWER + DIGITS + "-_"

  lemma LetterIs(k: nat)
    requires k < 26
    ensures UPPER[k] as int == 0x41 + k && LOWER[k] as int == 0x61 + k
  {
  }

  lemma DigitIs(k: nat)
    requires k < 10
    ensures DIGITS[k] as int == 0x30 + k
  {
  }

  /** Symbols are those of the alphabet, in its order. */
  lemma SymbolIsInAlphabet(v: sextet)
    ensures |ALPHABET| == 64 && Symbol(v) as int == ALPHABET[v] as int
  {
    if v < 26 {
      LetterIs(v);
    } else if v < 52 {
      LetterIs(v - 26);
    } else if v < 62 {
      DigitIs(v - 52);
    }
  }

  /** A byte stands for a value exactly if it is that value's symbol, so the decoder takes no other. */
  lemma ValueIff(c: byte, v: sextet)
    ensures Value(c) == v <==> Symbol(v) == c
  {
  }

  /** The bits of the values are those of the bytes, in order: three bytes read as one number are four
      values read as one; one or two bytes are filled up with zero bits. */
  lemma BitsAreKept(a: byte, b: byte, c: byte, rest: seq<byte>)
    ensures var s := Sextets([a, b, c] + rest);
            && |s| >= 4 && s[4..] == Sextets(rest)
            && ((s[0] as int * 64 + s[1] as int) * 64 + s[2] as int) * 64 + s[3] as int
               == (a as int * 256 + b as int) * 256 + c as int
    ensures var s := Sextets([a, b]);
            |s| == 3 && (s[0] as int * 64 + s[1] as int) * 64 + s[2] as int == (a as int * 256 + b as int) * 4
    ensures var s := Sextets([a]);
            |s| == 2 && s[0] as int * 64 + s[1] as int == a as int * 16
  {
    var whole := [a, b, c] + rest;
    assert whole[3..] == rest;
    GroupRoundTrip(a as int, b as int, c as int);
  }

  lemma {:induction false} WithoutNewlinesConcat(a: seq<byte>, b: seq<byte>)
    ensures WithoutNewlines(a + b) == WithoutNewlines(a) + WithoutNewlines(b)
  {
    if a == [] {
      assert a + b == b;
    } else {
      var tail := a[1..];
      assert (a + b)[1..] == tail + b && (a + b)[0] == a[0];
      WithoutNewlinesConcat(tail, b);
      ConcatAssociates([a[0]], WithoutNewlines(tail), WithoutNewlines(b));
    }
  }

  /** Go's decoder passes over line breaks wherever they are. */
  lemma {:induction false} LineBreaksDoNotMatter(a: seq<byte>, b: seq<byte>, br: byte)
    requires br == 0x0a || br == 0x0d
    ensures Decode(a + [br] + b) == Decode(a + b)
  {
    WithoutNewlinesConcat(a, [br]);
    WithoutNewlinesConcat(a + [br], b);
    WithoutNewlinesConcat(a, b);
    assert [br][1..] == [] && WithoutNewlines([br]) == [];
    assert WithoutNewlines(a) + [] == WithoutNewlines(a);
    assert WithoutNewlines(a + [br] + b) == WithoutNewlines(a + b);
  }
}
