/**
 * Base 64 as the worker uses it: the encodings of RFC 4648 (section 4, standard
 * alphabet with `=` padding; section 5, URL and filename safe alphabet) and the
 * decoder behind Python's `base64.b64decode(s)` with `validate=False`, which is
 * `binascii.a2b_base64` in its non-strict mode.
 */
module Base64 {
  import opened Opt

  type byte = x: int | 0 <= x < 256
  type sextet = x: int | 0 <= x < 64
  type QuadPos = x: int | 0 <= x < 4

  /** The character for a 6-bit value in the standard alphabet (RFC 4648, section 4, Table 1). */
  function StdChar(v: sextet): char {
    if v < 26 then ('A' as int + v) as char
    else if v < 52 then ('a' as int + (v - 26)) as char
    else if v < 62 then ('0' as int + (v - 52)) as char
    else if v == 62 then '+'
    else '/'
  }

  /** The character for a 6-bit value in the URL and filename safe alphabet (RFC 4648, section 5, Table 2). */
  function UrlChar(v: sextet): char {
    if v == 62 then '-' else if v == 63 then '_' else StdChar(v)
  }

  function AlphabetChar(v: sextet, url: bool): char {
    if url then UrlChar(v) else StdChar(v)
  }

  /**
   * The decoder's character table: the value of a standard-alphabet character,
   * None for every other character (the non-strict decoder skips those).
   */
  function SextetOf(c: char): (r: Option<sextet>)
    ensures r.Some? ==> StdChar(r.value) == c
    ensures c == '=' || c == '-' || c == '_' || c == '.' || c as int >= 128 ==> r.None?
  {
    if 'A' <= c <= 'Z' then Some(c as int - 'A' as int)
    else if 'a' <= c <= 'z' then Some(c as int - 'a' as int + 26)
    else if '0' <= c <= '9' then Some(c as int - '0' as int + 52)
    else if c == '+' then Some(62)
    else if c == '/' then Some(63)
    else None
  }

  /** The table inverts the alphabet: every standard character decodes to the value it encodes. */
  lemma SextetOfStdChar(v: sextet)
    ensures SextetOf(StdChar(v)) == Some(v)
  {
  }

  /** The four 6-bit values of the 24-bit group `b0 b1 b2`, most significant first. */
  function V0(b0: byte): sextet { b0 / 4 }
  function V1(b0: byte, b1: byte): sextet { b0 % 4 * 16 + b1 / 16 }
  function V2(b1: byte, b2: byte): sextet { b1 % 16 * 4 + b2 / 64 }
  function V3(b2: byte): sextet { b2 % 64 }

  /** The four characters of one 24-bit group (RFC 4648, section 4). */
  function Quantum(b0: byte, b1: byte, b2: byte, url: bool): (q: string)
    ensures |q| == 4
  {
    [AlphabetChar(V0(b0), url), AlphabetChar(V1(b0, b1), url),
     AlphabetChar(V2(b1, b2), url), AlphabetChar(V3(b2), url)]
  }

  /**
   * The encoded characters of `b` without padding: four per 24-bit group, and
   * for a final group of one or two bytes the first two or three characters of
   * that group completed with zero bits (RFC 4648, section 4).
   */
  function Chars(b: seq<byte>, url: bool): string
    decreases |b|
  {
    if |b| == 0 then []
    else if |b| == 1 then Quantum(b[0], 0, 0, url)[..2]
    else if |b| == 2 then Quantum(b[0], b[1], 0, url)[..3]
    else Quantum(b[0], b[1], b[2], url) + Chars(b[3..], url)
  }

  /** Standard base 64 with `=` padding of the final quantum (RFC 4648, section 4). */
  function Encode(b: seq<byte>): string {
    Chars(b, false) + Padding(|b|)
  }

  /** The `=` that complete the final quantum of an `n`-byte input. */
  function Padding(n: nat): string {
    if n % 3 == 1 then "==" else if n % 3 == 2 then "=" else ""
  }

  /** The encoding of three or more bytes starts with the quantum of the first three. */
  lemma EncodeCons(b: seq<byte>)
    requires |b| >= 3
    ensures Encode(b) == Quantum(b[0], b[1], b[2], false) + Encode(b[3..])
  {
    assert Padding(|b|) == Padding(|b[3..]|) by {
      assert |b[3..]| + 3 == |b|;
    }
    assert Chars(b, false) == Quantum(b[0], b[1], b[2], false) + Chars(b[3..], false);
  }

  /** A character that base64url text never holds. */
  predicate NotUrlChar(c: char) {
    c == '=' || c == '.' || c == '+' || c == '/'
  }

  lemma UrlCharNot(v: sextet)
    ensures !NotUrlChar(UrlChar(v))
  {
  }

  /** Text with none of the characters base64url never holds. */
  predicate UrlText(s: string) {
    forall i :: 0 <= i < |s| ==> !NotUrlChar(s[i])
  }

  lemma UrlTextAppend(x: string, y: string)
    requires UrlText(x) && UrlText(y)
    ensures UrlText(x + y)
  {
    assert forall i :: |x| <= i < |x + y| ==> (x + y)[i] == y[i - |x|];
  }

  lemma UrlQuantum(b0: byte, b1: byte, b2: byte)
    ensures UrlText(Quantum(b0, b1, b2, true))
  {
    UrlCharNot(V0(b0));
    UrlCharNot(V1(b0, b1));
    UrlCharNot(V2(b1, b2));
    UrlCharNot(V3(b2));
  }

  /** Base64url characters are never `=`, `.`, `+` or `/`. */
  lemma {:induction false} UrlCharsOnly(b: seq<byte>)
    ensures UrlText(Chars(b, true))
    decreases |b|
  {
    if |b| > 0 {
      var b1: byte := if |b| >= 2 then b[1] else 0;
      var b2: byte := if |b| >= 3 then b[2] else 0;
      UrlQuantum(b[0], b1, b2);
      if |b| >= 3 {
        UrlCharsOnly(b[3..]);
        UrlTextAppend(Quantum(b[0], b1, b2, true), Chars(b[3..], true));
      }
    }
  }

  /**
   * The base64url encoding of RFC 4648 section 5 with its trailing `=` removed,
   * which is how JWS compact serialisation writes each segment (section 2 of RFC 7515).
   */
  function UrlEncodeUnpadded(b: seq<byte>): (s: string)
    ensures UrlText(s)
  {
    UrlCharsOnly(b);
    Chars(b, true)
  }

  /** Why decoding stopped with `binascii.Error`. */
  datatype DecodeError =
    | DataLengthOneMoreThanMultipleOfFour  // one data character left over: no input encodes to that
    | IncorrectPadding                     // two or three data characters left over without enough `=`

  /** What `base64.b64decode(s)` does with a `str`. */
  datatype Decoded =
    | Bytes(bytes: seq<byte>)
    | BinasciiError(reason: DecodeError)
    | NotAscii    // ValueError raised while turning the str into ASCII bytes (not a binascii.Error)

  /**
   * The decoder's state between characters: the position inside the current
   * quantum, the bits of the last character not yet written out, the number of
   * `=` seen since the last data character (counted only from position 2 on),
   * and the bytes written so far.
   */
  datatype DecodeState = DecodeState(quadPos: QuadPos, leftChar: sextet, pads: nat, out: seq<byte>)

  const Start := DecodeState(0, 0, 0, [])

  /** One data character: the shifts of the quantum's four positions. */
  function Step(st: DecodeState, v: sextet): (r: DecodeState)
    ensures r.quadPos == (st.quadPos + 1) % 4 && r.pads == 0
    ensures |r.out| == |st.out| + (if st.quadPos == 0 then 0 else 1)
    ensures st.out <= r.out
  {
    match st.quadPos
    case 0 => DecodeState(1, v, 0, st.out)
    case 1 => DecodeState(2, v % 16, 0, st.out + [st.leftChar * 4 + v / 16])
    case 2 => DecodeState(3, v % 4, 0, st.out + [st.leftChar % 16 * 16 + v / 4])
    case 3 => DecodeState(0, 0, 0, st.out + [st.leftChar % 4 * 64 + v])
  }

  /** End of input: a quantum left open is an error, a closed one yields the bytes. */
  function Finish(st: DecodeState): Decoded {
    if st.quadPos == 0 then Bytes(st.out)
    else if st.quadPos == 1 then BinasciiError(DataLengthOneMoreThanMultipleOfFour)
    else BinasciiError(IncorrectPadding)
  }

  /**
   * `binascii.a2b_base64` in non-strict mode, from state `st`: characters outside
   * the alphabet are skipped, `=` is ignored before the third character of a
   * quantum, and enough `=` after it ends decoding with everything after ignored.
   */
  function A2b(s: string, st: DecodeState): (r: Decoded)
    ensures !r.NotAscii?
    ensures r.Bytes? ==> st.out <= r.bytes && |r.bytes| <= |st.out| + |s|
    decreases |s|
  {
    if |s| == 0 then Finish(st)
    else if s[0] == '=' then
      if st.quadPos >= 2 && st.quadPos + st.pads + 1 >= 4 then Bytes(st.out)
      else A2b(s[1..], if st.quadPos >= 2 then st.(pads := st.pads + 1) else st)
    else
      match SextetOf(s[0])
      case None => A2b(s[1..], st)
      case Some(v) => A2b(s[1..], Step(st, v))
  }

  predicate IsAscii(s: string) {
    forall i :: 0 <= i < |s| ==> s[i] as int < 128
  }

  /** `base64.b64decode(s)` for a `str` argument, with `altchars=None` and `validate=False`. */
  function B64Decode(s: string): (r: Decoded)
    ensures r.NotAscii? <==> !IsAscii(s)
    ensures r.Bytes? ==> |r.bytes| <= |s|
  {
    if !IsAscii(s) then NotAscii else A2b(s, Start)
  }

  /** One data character read: the decoder moves on with that character's value. */
  lemma ReadData(s: string, st: DecodeState, v: sextet)
    requires |s| > 0 && s[0] == StdChar(v)
    ensures A2b(s, st) == A2b(s[1..], Step(st, v))
  {
    SextetOfStdChar(v);
  }

  /** The shifts of one group's values put back the bytes they were cut from. */
  lemma QuantumBytes(st: DecodeState, b0: byte, b1: byte, b2: byte)
    requires st.quadPos == 0
    ensures var s2 := Step(Step(st, V0(b0)), V1(b0, b1));
            var s3 := Step(s2, V2(b1, b2));
            && s2 == DecodeState(2, b1 / 16, 0, st.out + [b0])
            && s3 == DecodeState(3, b2 / 64, 0, st.out + [b0, b1])
            && Step(s3, V3(b2)) == DecodeState(0, 0, 0, st.out + [b0, b1, b2])
  {
    var s1 := Step(st, V0(b0));
    assert s1 == DecodeState(1, V0(b0), 0, st.out);
    SecondByte(st.out, b0, b1);
    ThirdByte(st.out + [b0], b1, b2);
    FourthChar(st.out + [b0, b1], b2);
    assert st.out + [b0] + [b1] == st.out + [b0, b1];
    assert st.out + [b0, b1] + [b2] == st.out + [b0, b1, b2];
  }

  lemma SecondByte(out: seq<byte>, b0: byte, b1: byte)
    ensures Step(DecodeState(1, V0(b0), 0, out), V1(b0, b1)) == DecodeState(2, b1 / 16, 0, out + [b0])
  {
    assert V1(b0, b1) / 16 == b0 % 4;
    assert V1(b0, b1) % 16 == b1 / 16;
  }

  lemma ThirdByte(out: seq<byte>, b1: byte, b2: byte)
    ensures Step(DecodeState(2, b1 / 16, 0, out), V2(b1, b2)) == DecodeState(3, b2 / 64, 0, out + [b1])
  {
    assert V2(b1, b2) / 4 == b1 % 16;
    assert V2(b1, b2) % 4 == b2 / 64;
  }

  lemma FourthChar(out: seq<byte>, b2: byte)
    ensures Step(DecodeState(3, b2 / 64, 0, out), V3(b2)) == DecodeState(0, 0, 0, out + [b2])
  {
  }

  /** The first `k` characters of a standard quantum are read as data characters. */
  lemma ReadQuantum(b0: byte, b1: byte, b2: byte, k: nat, rest: string, st: DecodeState)
    requires 2 <= k <= 4 && st.quadPos == 0
    ensures var c := Quantum(b0, b1, b2, false)[..k] + rest;
            A2b(c, st) == A2b(rest,
              if k == 2 then DecodeState(2, b1 / 16, 0, st.out + [b0])
              else if k == 3 then DecodeState(3, b2 / 64, 0, st.out + [b0, b1])
              else DecodeState(0, 0, 0, st.out + [b0, b1, b2]))
  {
    var c := Quantum(b0, b1, b2, false)[..k] + rest;
    QuantumBytes(st, b0, b1, b2);
    var s1 := Step(st, V0(b0));
    var s2 := Step(s1, V1(b0, b1));
    var s3 := Step(s2, V2(b1, b2));
    ReadData(c, st, V0(b0));
    assert c[1..][0] == StdChar(V1(b0, b1));
    ReadData(c[1..], s1, V1(b0, b1));
    assert c[1..][1..] == c[2..];
    if k == 2 {
      assert c[2..] == rest;
    } else {
      assert c[2..][0] == StdChar(V2(b1, b2));
      ReadData(c[2..], s2, V2(b1, b2));
      assert c[2..][1..] == c[3..];
      if k == 3 {
        assert c[3..] == rest;
      } else {
        assert c[3..][0] == StdChar(V3(b2));
        ReadData(c[3..], s3, V3(b2));
        assert c[3..][1..] == rest;
      }
    }
  }

  /** The encoding of a final single byte, `xy==`, decodes to that byte. */
  lemma DecodeFinalOne(b0: byte, st: DecodeState)
    requires st.quadPos == 0
    ensures A2b(Encode([b0]), st) == Bytes(st.out + [b0])
  {
    assert Encode([b0]) == Quantum(b0, 0, 0, false)[..2] + "==";
    ReadQuantum(b0, 0, 0, 2, "==", st);
    var s2 := DecodeState(2, 0, 0, st.out + [b0]);
    assert A2b("==", s2) == A2b("=", s2.(pads := 1));
  }

  /** The encoding of a final pair of bytes, `xyz=`, decodes to that pair. */
  lemma DecodeFinalTwo(b0: byte, b1: byte, st: DecodeState)
    requires st.quadPos == 0
    ensures A2b(Encode([b0, b1]), st) == Bytes(st.out + [b0, b1])
  {
    assert Encode([b0, b1]) == Quantum(b0, b1, 0, false)[..3] + "=";
    ReadQuantum(b0, b1, 0, 3, "=", st);
  }

  /** An encoding of fewer than three bytes decodes to those bytes. */
  lemma DecodeShort(b: seq<byte>, st: DecodeState)
    requires |b| < 3 && st.quadPos == 0
    ensures A2b(Encode(b), st) == Bytes(st.out + b)
  {
    if |b| == 0 {
      assert Encode(b) == [];
    } else if |b| == 1 {
      assert [b[0]] == b;
      DecodeFinalOne(b[0], st);
    } else {
      assert [b[0], b[1]] == b;
      DecodeFinalTwo(b[0], b[1], st);
    }
  }

  /** The first four characters of a longer encoding decode to its first three bytes. */
  lemma DecodeLeadingQuantum(b: seq<byte>, st: DecodeState)
    requires |b| >= 3 && st.quadPos == 0
    ensures A2b(Encode(b), st) == A2b(Encode(b[3..]), DecodeState(0, 0, 0, st.out + b[..3]))
  {
    var q := Quantum(b[0], b[1], b[2], false);
    EncodeCons(b);
    assert q[..4] == q;
    ReadQuantum(b[0], b[1], b[2], 4, Encode(b[3..]), st);
    assert b[..3] == [b[0], b[1], b[2]];
  }

  /** Decoding a complete standard encoding from the start of a quantum writes exactly the encoded bytes. */
  lemma {:induction false} DecodeEncode(b: seq<byte>, st: DecodeState)
    requires st.quadPos == 0
    ensures A2b(Encode(b), st) == Bytes(st.out + b)
    decreases |b|
  {
    if |b| < 3 {
      DecodeShort(b, st);
    } else {
      DecodeLeadingQuantum(b, st);
      DecodeEncode(b[3..], DecodeState(0, 0, 0, st.out + b[..3]));
      assert st.out + b[..3] + b[3..] == st.out + b;
    }
  }

  /** The decoder inverts the standard encoding: `b64decode(encode(b)) == b` for every byte string. */
  lemma EncodeRoundTrip(b: seq<byte>)
    ensures B64Decode(Encode(b)) == Bytes(b)
  {
    EncodeIsAscii(b);
    DecodeEncode(b, Start);
  }

  lemma StdCharAscii(v: sextet)
    ensures StdChar(v) as int < 128
  {
  }

  lemma AsciiAppend(x: string, y: string)
    requires IsAscii(x) && IsAscii(y)
    ensures IsAscii(x + y)
  {
    assert forall i :: |x| <= i < |x + y| ==> (x + y)[i] == y[i - |x|];
  }

  lemma AsciiQuantum(b0: byte, b1: byte, b2: byte)
    ensures IsAscii(Quantum(b0, b1, b2, false))
  {
    StdCharAscii(V0(b0));
    StdCharAscii(V1(b0, b1));
    StdCharAscii(V2(b1, b2));
    StdCharAscii(V3(b2));
  }

  lemma {:induction false} EncodeIsAscii(b: seq<byte>)
    ensures IsAscii(Encode(b))
    decreases |b|
  {
    if |b| >= 3 {
      AsciiQuantum(b[0], b[1], b[2]);
      EncodeIsAscii(b[3..]);
      EncodeCons(b);
      AsciiAppend(Quantum(b[0], b[1], b[2], false), Encode(b[3..]));
    } else if |b| > 0 {
      var b1: byte := if |b| == 2 then b[1] else 0;
      AsciiQuantum(b[0], b1, 0);
    }
  }

  /** Every character of `s` is in the standard alphabet. */
  predicate AllData(s: string) {
    forall i :: 0 <= i < |s| ==> SextetOf(s[i]).Some?
  }

  /** The state after reading data characters only. */
  function Absorb(s: string, st: DecodeState): (r: DecodeState)
    requires AllData(s)
    ensures r.quadPos == (st.quadPos + |s|) % 4
    ensures r.pads == if |s| == 0 then st.pads else 0
    decreases |s|
  {
    if |s| == 0 then st else Absorb(s[1..], Step(st, SextetOf(s[0]).value))
  }

  /** Reading a run of data characters is the same as starting from the state they lead to. */
  lemma {:induction false} A2bAbsorb(s: string, t: string, st: DecodeState)
    requires AllData(s)
    ensures A2b(s + t, st) == A2b(t, Absorb(s, st))
    decreases |s|
  {
    if |s| == 0 {
      assert s + t == t;
    } else {
      assert (s + t)[0] == s[0] && (s + t)[1..] == s[1..] + t;
      var v := SextetOf(s[0]).value;
      assert s[0] != '=';
      A2bAbsorb(s[1..], t, Step(st, v));
    }
  }

  /**
   * After data characters, the `=` that complete the quantum end decoding
   * successfully, except after a single leftover character: there they are
   * ignored and the decoder reports the impossible length.
   */
  lemma ClosingPads(st: DecodeState)
    requires st.pads == 0
    ensures var k := (4 - st.quadPos) % 4;
            A2b(seq(k, _ => '='), st) ==
              if st.quadPos == 1 then BinasciiError(DataLengthOneMoreThanMultipleOfFour) else Bytes(st.out)
  {
    var k := (4 - st.quadPos) % 4;
    var e := seq(k, _ => '=');
    if st.quadPos == 1 {
      assert e == "===";
      assert A2b(e, st) == A2b("==", st);
      assert A2b("==", st) == A2b("=", st);
      assert A2b("=", st) == A2b("", st);
    } else if st.quadPos == 2 {
      assert e == "==";
      assert A2b(e, st) == A2b("=", st.(pads := 1));
    } else if st.quadPos == 3 {
      assert e == "=";
    } else {
      assert e == "";
    }
  }
}
