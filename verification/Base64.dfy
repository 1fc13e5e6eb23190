/** The streaming base64 decoder of the webhook channel, against the encoder of section 4 of
    RFC 4648. The accumulator is a 32-bit word. */
module Base64 {
  import opened Text

  type byte = b: nat | b < 256

  const WORD: nat := 0x1_0000_0000

  /** The value of a base64 symbol, or -1. */
  function SymbolValue(c: char): (v: int)
    ensures -1 <= v < 64
  {
    if 'A' <= c <= 'Z' then c as int - 'A' as int
    else if 'a' <= c <= 'z' then c as int - 'a' as int + 26
    else if '0' <= c <= '9' then c as int - '0' as int + 52
    else if c == '+' then 62
    else if c == '/' then 63
    else -1
  }

  predicate IsSymbol(c: char) {
    SymbolValue(c) >= 0
  }

  function Pow2(bits: nat): nat {
    if bits == 0 then 1 else 2 * Pow2(bits - 1)
  }

  // ---- The decoder -----------------------------------------------------------------------------

  datatype Decoder = Decoder(buffer: nat, bits: nat, padding: bool, out: seq<byte>) | Broken

  const FRESH: Decoder := Decoder(0, 0, false, [])

  /** The bits held over are fewer than a byte, and the accumulator has no others. */
  predicate Tidy(d: Decoder) {
    d.Decoder? ==> d.bits in {0, 2, 4, 6} && d.buffer < Pow2(d.bits)
  }

  function Shift(d: Decoder, v: nat): (r: Decoder)
    requires d.Decoder? && Tidy(d) && v < 64
    ensures r.Decoder? && Tidy(r)
  {
    Powers();
    var buffer := d.buffer * 64 + v;
    var bits := d.bits + 6;
    if bits < 8 then d.(buffer := buffer, bits := bits)
    else
      d.(buffer := buffer % Pow2(bits - 8), bits := bits - 8,
         out := d.out + [buffer / Pow2(bits - 8)])
  }

  lemma Powers()
    ensures Pow2(0) == 1 && Pow2(2) == 4 && Pow2(4) == 16 && Pow2(6) == 64
  {
  }

  function Feed(d: Decoder, c: char): (r: Decoder)
    requires Tidy(d)
    ensures Tidy(r)
  {
    if d.Broken? || IsWhite(c) then d
    else if c == '=' then d.(padding := true)
    else if !IsSymbol(c) || d.padding then Broken
    else Shift(d, SymbolValue(c))
  }

  function FeedAll(input: string): (r: Decoder)
    ensures Tidy(r)
    decreases |input|
  {
    if input == [] then FRESH else Feed(FeedAll(input[..|input| - 1]), input[|input| - 1])
  }

  function Decode(input: string): Result<seq<byte>> {
    var d := FeedAll(input);
    if d.Broken? then Err("sc.channel_webhook.base64_invalid")
    else if d.out == [] then Err("sc.channel_webhook.base64_empty")
    else Ok(d.out)
  }

  /** The decoder in place; the accumulator's 32-bit shift never loses a bit. */
  method DecodeText(input: string) returns (r: Result<seq<byte>>)
    ensures r == Decode(input)
  {
    var buffer: nat, bits: nat, padding := 0, 0, false;
    var out: seq<byte> := [];
    var i := 0;
    while i < |input|
      invariant i <= |input|
      invariant FeedAll(input[..i]) == Decoder(buffer, bits, padding, out)
    {
      var ch := input[i];
      assert input[..i + 1][..i] == input[..i];
      i := i + 1;
      if ch == ' ' || ch == '\n' || ch == '\r' || ch == '\t' {
        continue;
      }
      if ch == '=' {
        padding := true;
        continue;
      }
      var value := SymbolValue(ch);
      if value < 0 || padding {
        FeedBroken(input, i);
        return Err("sc.channel_webhook.base64_invalid");
      }
      ghost var shifted := Shift(Decoder(buffer, bits, padding, out), value);
      Powers();
      buffer := buffer * 64 % WORD + value;
      bits := bits + 6;
      if bits >= 8 {
        bits := bits - 8;
        var b := buffer / Pow2(bits);
        out := out + [b];
        buffer := buffer % Pow2(bits);
      }
      assert shifted == Decoder(buffer, bits, padding, out);
    }
    assert input[..|input|] == input;
    if out == [] {
      return Err("sc.channel_webhook.base64_empty");
    }
    return Ok(out);
  }

  lemma {:induction false} FeedBroken(input: string, i: nat)
    requires i <= |input| && FeedAll(input[..i]).Broken?
    ensures FeedAll(input).Broken?
    decreases |input| - i
  {
    if i == |input| {
      assert input[..i] == input;
    } else {
      assert input[..i + 1][..i] == input[..i];
      FeedBroken(input, i + 1);
    }
  }

  // ---- What is accepted, and what it decodes to -------------------------------------------------

  function Significant(input: string): string
    decreases |input|
  {
    if input == [] then []
    else Significant(input[..|input| - 1]) + (if IsWhite(input[|input| - 1]) then [] else [input[|input| - 1]])
  }

  /** White space is skipped wherever it stands. */
  lemma {:induction false} SpacingIsSkipped(input: string)
    ensures FeedAll(input) == FeedAll(Significant(input))
    decreases |input|
  {
    if input != [] {
      var n := |input| - 1;
      SpacingIsSkipped(input[..n]);
      var s := Significant(input[..n]);
      assert s + [] == s && (s + [input[n]])[..|s|] == s;
    }
  }

  /** `k` symbols, then nothing but padding. */
  predicate Shaped(s: string, k: nat) {
    && k <= |s|
    && (forall i :: 0 <= i < k ==> IsSymbol(s[i]))
    && (forall i :: k <= i < |s| ==> s[i] == '=')
  }

  /** Symbols as one big-endian number in base 64. */
  function SymbolsNumber(s: string): int
    decreases |s|
  {
    if s == [] then 0 else SymbolsNumber(s[..|s| - 1]) * 64 + SymbolValue(s[|s| - 1])
  }

  /** Bytes as one big-endian number. */
  function BytesNumber(b: seq<byte>): nat
    decreases |b|
  {
    if b == [] then 0 else BytesNumber(b[..|b| - 1]) * 256 + b[|b| - 1]
  }

  /** The output and the bits held over are the bits of the symbols, in order. */
  predicate Regrouped(d: Decoder, symbols: string)
    requires d.Decoder?
  {
    && 8 * |d.out| + d.bits == 6 * |symbols|
    && BytesNumber(d.out) * Pow2(d.bits) + d.buffer == SymbolsNumber(symbols)
  }

  lemma ShiftRegroups(d: Decoder, symbols: string, c: char)
    requires d.Decoder? && Tidy(d) && Regrouped(d, symbols) && IsSymbol(c)
    ensures Regrouped(Shift(d, SymbolValue(c)), symbols + [c])
  {
    Powers();
    var v := SymbolValue(c);
    var r := Shift(d, v);
    assert (symbols + [c])[..|symbols|] == symbols;
    hide Pow2;
    if d.bits > 0 {
      assert r.out[..|d.out|] == d.out;
      SplitWord(BytesNumber(d.out), d.buffer * 64 + v, Pow2(d.bits - 2));
    }
  }

  /** Splitting the accumulator at `p` moves its upper part behind the bytes already out. */
  lemma SplitWord(bytes: nat, word: nat, p: nat)
    requires p == 1 || p == 4 || p == 16
    ensures (bytes * 256 + word / p) * p + word % p == bytes * (4 * p) * 64 + word
  {
    if p == 1 {
    } else if p == 4 {
    } else {
    }
  }

  lemma ShapedEnd(s: string, c: char, k: nat)
    ensures Shaped(s + [c], k) <==>
              ((k == |s| + 1 && IsSymbol(c) && Shaped(s, |s|)) || (k <= |s| && c == '=' && Shaped(s, k)))
  {
    var t := s + [c];
    assert t[|s|] == c && forall i :: 0 <= i < |s| ==> t[i] == s[i];
  }

  lemma FeedLast(s: string, c: char)
    ensures FeedAll(s + [c]) == Feed(FeedAll(s), c)
  {
    assert (s + [c])[..|s|] == s;
  }

  lemma FeedRegroups(d: Decoder, symbols: string, c: char)
    requires d.Decoder? && Tidy(d) && !d.padding && Regrouped(d, symbols) && IsSymbol(c) && !IsWhite(c) && c != '='
    ensures Feed(d, c).Decoder? && !Feed(d, c).padding && Regrouped(Feed(d, c), symbols + [c])
  {
    hide Regrouped;
    ShiftRegroups(d, symbols, c);
  }

  /** Symbols followed by padding are decoded, and the symbols regrouped. */
  lemma {:induction false} ShapedIsDecoded(s: string, k: nat)
    requires Shaped(s, k)
    ensures FeedAll(s).Decoder? && Regrouped(FeedAll(s), s[..k]) && (FeedAll(s).padding <==> k < |s|)
    decreases |s|
  {
    if s == [] {
      Powers();
    } else {
      var n := |s| - 1;
      var init, c := s[..n], s[n];
      assert s == init + [c];
      FeedLast(init, c);
      ShapedEnd(init, c, k);
      if k == |s| {
        ShapedIsDecoded(init, n);
        assert init[..n] == init && s[..k] == s;
        FeedRegroups(FeedAll(init), init, c);
      } else {
        ShapedIsDecoded(init, k);
        assert s[..k] == init[..k];
      }
    }
  }

  /** Nothing else is decoded. */
  lemma {:induction false} DecodedIsShaped(s: string) returns (k: nat)
    requires (forall i :: 0 <= i < |s| ==> !IsWhite(s[i])) && FeedAll(s).Decoder?
    ensures Shaped(s, k)
    decreases |s|
  {
    if s == [] {
      k := 0;
    } else {
      var n := |s| - 1;
      var init, c := s[..n], s[n];
      assert s == init + [c];
      FeedLast(init, c);
      k := DecodedIsShaped(init);
      ShapedIsDecoded(init, k);
      if c != '=' {
        k := |s|;
      }
      ShapedEnd(init, c, k);
    }
  }

  lemma {:induction false} SignificantHasNoSpacing(input: string)
    ensures forall i :: 0 <= i < |Significant(input)| ==> !IsWhite(Significant(input)[i])
    decreases |input|
  {
    if input != [] {
      SignificantHasNoSpacing(input[..|input| - 1]);
    }
  }

  /** The decoder accepts exactly the inputs that are, white space aside, two or more symbols followed
      by padding; the output is then the whole bytes of the symbols' bits, in order, and fewer than
      eight bits are dropped. */
  lemma DecodeIff(input: string)
    ensures Decode(input).Ok? <==> exists k: nat :: k >= 2 && Shaped(Significant(input), k)
    ensures forall k: nat :: k >= 2 && Shaped(Significant(input), k) ==>
              FeedAll(input).Decoder? && Decode(input) == Ok(FeedAll(input).out)
              && Regrouped(FeedAll(input), Significant(input)[..k])
  {
    hide Regrouped, FeedAll, Significant;
    var s := Significant(input);
    SpacingIsSkipped(input);
    SignificantHasNoSpacing(input);
    if FeedAll(s).Decoder? {
      var k := DecodedIsShaped(s);
      ShapedIsDecoded(s, k);
      RegroupedLength(FeedAll(s), s, k);
    }
    forall k: nat | k >= 2 && Shaped(s, k)
      ensures FeedAll(s).Decoder? && FeedAll(s).out != [] && Regrouped(FeedAll(s), s[..k])
    {
      ShapedIsDecoded(s, k);
      RegroupedLength(FeedAll(s), s, k);
    }
  }

  /** An input of the right shape with at most one symbol is refused as empty, one of the wrong shape as invalid. */
  lemma RefusedIff(input: string)
    ensures Decode(input) == Err("sc.channel_webhook.base64_empty")
       <==> exists k: nat :: k <= 1 && Shaped(Significant(input), k)
    ensures Decode(input) == Err("sc.channel_webhook.base64_invalid")
       <==> forall k: nat :: !Shaped(Significant(input), k)
  {
    hide Regrouped, FeedAll, Significant, Shaped;
    var s := Significant(input);
    SpacingIsSkipped(input);
    SignificantHasNoSpacing(input);
    if FeedAll(s).Decoder? {
      var k := DecodedIsShaped(s);
      ShapedIsDecoded(s, k);
    }
    forall k: nat | Shaped(s, k)
      ensures FeedAll(s).Decoder? && (FeedAll(s).out != [] <==> k >= 2)
    {
      ShapedIsDecoded(s, k);
      RegroupedLength(FeedAll(s), s, k);
    }
  }

  lemma RegroupedLength(d: Decoder, s: string, k: nat)
    requires Shaped(s, k) && d.Decoder? && Tidy(d) && Regrouped(d, s[..k])
    ensures d.out != [] <==> k >= 2
  {
  }

  // ---- The encoder -----------------------------------------------------------------------------

  function Symbol(v: nat): (c: char)
    requires v < 64
    ensures SymbolValue(c) == v && !IsWhite(c) && c != '='
  {
    if v < 26 then ('A' as int + v) as char
    else if v < 52 then ('a' as int + v - 26) as char
    else if v < 62 then ('0' as int + v - 52) as char
    else if v == 62 then '+'
    else '/'
  }

  /** Section 4 of RFC 4648: three bytes to four symbols, the last group padded with zero bits and
      then with `=`. */
  function Encode(b: seq<byte>): string {
    if b == [] then []
    else if |b| == 1 then [Symbol(b[0] / 4), Symbol(b[0] % 4 * 16), '=', '=']
    else if |b| == 2 then
      [Symbol(b[0] / 4), Symbol(b[0] % 4 * 16 + b[1] / 16), Symbol(b[1] % 16 * 4), '=']
    else EncodeGroup(b[0], b[1], b[2]) + Encode(b[3..])
  }

  function EncodeGroup(x: byte, y: byte, z: byte): string {
    [Symbol(x / 4), Symbol(x % 4 * 16 + y / 16), Symbol(y % 16 * 4 + z / 64), Symbol(z % 64)]
  }

  lemma FirstSymbol(out: seq<byte>, x: byte)
    ensures Feed(Decoder(0, 0, false, out), Symbol(x / 4)) == Decoder(x / 4, 6, false, out)
  {
  }

  lemma SecondSymbol(out: seq<byte>, x: byte, y: byte)
    ensures Feed(Decoder(x / 4, 6, false, out), Symbol(x % 4 * 16 + y / 16)) == Decoder(y / 16, 4, false, out + [x])
  {
    Powers();
    var buffer := x / 4 * 64 + x % 4 * 16 + y / 16;
    assert buffer == x * 16 + y / 16;
  }

  lemma ThirdSymbol(out: seq<byte>, y: byte, z: byte)
    ensures Feed(Decoder(y / 16, 4, false, out), Symbol(y % 16 * 4 + z / 64)) == Decoder(z / 64, 2, false, out + [y])
  {
    Powers();
    var buffer := y / 16 * 64 + y % 16 * 4 + z / 64;
    assert buffer == y * 4 + z / 64;
  }

  lemma FourthSymbol(out: seq<byte>, z: byte)
    ensures Feed(Decoder(z / 64, 2, false, out), Symbol(z % 64)) == Decoder(0, 0, false, out + [z])
  {
    Powers();
    assert z / 64 * 64 + z % 64 == z;
  }

  lemma FeedFour(a: string, s: string)
    requires |s| == 4
    ensures FeedAll(a + s) == Feed(Feed(Feed(Feed(FeedAll(a), s[0]), s[1]), s[2]), s[3])
  {
    hide Feed, FeedAll, Tidy;
    FeedLast(a, s[0]);
    FeedLast(a + [s[0]], s[1]);
    FeedLast(a + [s[0]] + [s[1]], s[2]);
    FeedLast(a + [s[0]] + [s[1]] + [s[2]], s[3]);
    assert a + [s[0]] + [s[1]] + [s[2]] + [s[3]] == a + s;
  }

  /** A whole group of four symbols. */
  lemma GroupDecodes(a: string, out: seq<byte>, x: byte, y: byte, z: byte)
    requires FeedAll(a) == Decoder(0, 0, false, out)
    ensures FeedAll(a + EncodeGroup(x, y, z)) == Decoder(0, 0, false, out + [x, y, z])
  {
    hide Feed, FeedAll, Tidy, Symbol;
    FeedFour(a, EncodeGroup(x, y, z));
    FirstSymbol(out, x);
    SecondSymbol(out, x, y);
    ThirdSymbol(out + [x], y, z);
    FourthSymbol(out + [x] + [y], z);
    assert out + [x] + [y] + [z] == out + [x, y, z];
  }

  lemma PaddingFeeds(d: Decoder)
    requires Tidy(d) && d.Decoder?
    ensures Feed(d, '=') == d.(padding := true)
  {
  }

  lemma LastOneDecodes(a: string, out: seq<byte>, x: byte)
    requires FeedAll(a) == Decoder(0, 0, false, out)
    ensures FeedAll(a + Encode([x])) == Decoder(0, 4, true, out + [x])
  {
    hide Feed, FeedAll, Symbol;
    FeedFour(a, Encode([x]));
    FirstSymbol(out, x);
    SecondSymbol(out, x, 0);
    var d := Decoder(0, 4, false, out + [x]);
    Powers();
    PaddingFeeds(d);
    PaddingFeeds(d.(padding := true));
  }

  lemma LastTwoDecode(a: string, out: seq<byte>, x: byte, y: byte)
    requires FeedAll(a) == Decoder(0, 0, false, out)
    ensures FeedAll(a + Encode([x, y])) == Decoder(0, 2, true, out + [x, y])
  {
    hide Feed, FeedAll, Symbol;
    FeedFour(a, Encode([x, y]));
    FirstSymbol(out, x);
    SecondSymbol(out, x, y);
    ThirdSymbol(out + [x], y, 0);
    Powers();
    PaddingFeeds(Decoder(0, 2, false, out + [x] + [y]));
    assert out + [x] + [y] == out + [x, y];
  }

  lemma {:induction false} EncodedFeeds(a: string, out: seq<byte>, b: seq<byte>)
    requires FeedAll(a) == Decoder(0, 0, false, out)
    ensures FeedAll(a + Encode(b)).Decoder? && FeedAll(a + Encode(b)).out == out + b
    decreases |b|
  {
    hide FeedAll, Symbol, EncodeGroup;
    if b == [] {
      assert a + [] == a && out + [] == out;
    } else if |b| == 1 {
      assert b == [b[0]];
      LastOneDecodes(a, out, b[0]);
    } else if |b| == 2 {
      assert b == [b[0], b[1]];
      LastTwoDecode(a, out, b[0], b[1]);
    } else {
      var group, three := EncodeGroup(b[0], b[1], b[2]), [b[0], b[1], b[2]];
      GroupDecodes(a, out, b[0], b[1], b[2]);
      EncodedFeeds(a + group, out + three, b[3..]);
      assert a + group + Encode(b[3..]) == a + Encode(b);
      assert out + three + b[3..] == out + b;
    }
  }

  /** Decoding inverts encoding on every non-empty byte string, with white space put in anywhere. */
  lemma DecodeInvertsEncode(b: seq<byte>, text: string)
    requires b != [] && Significant(text) == Encode(b)
    ensures Decode(text) == Ok(b)
  {
    hide Encode, Significant;
    SpacingIsSkipped(text);
    EncodedFeeds([], [], b);
    assert [] + Encode(b) == Encode(b) && [] + b == b;
  }

  // ---- The alphabet ----------------------------------------------------------------------------

  /** Table 1 of RFC 4648. */
  const ALPHABET: string :=
    "ABCDEFGHIJKLMNOPQRSTUVWXYZ" + "abcdefghijklmnopqrstuvwxyz" + "0123456789" + "+/"

  /** The symbols are those 64 characters, each with its place in the table for its value. */
  lemma SymbolsAreAlphabet(c: char)
    ensures |ALPHABET| == 64
    ensures SymbolValue(c) >= 0 ==> ALPHABET[SymbolValue(c)] == c
    ensures SymbolValue(c) < 0 <==> c !in ALPHABET
  {
    if SymbolValue(c) < 0 {
      var upper, lower := "ABCDEFGHIJKLMNOPQRSTUVWXYZ", "abcdefghijklmnopqrstuvwxyz";
      assert c !in upper && c !in lower && c !in "0123456789" && c !in "+/";
    }
  }
}
