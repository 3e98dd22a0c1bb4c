/**
 * The steps `Worker.run` applies to one signed transaction: a JWS in compact
 * serialisation (section 7.1 of RFC 7515), whose second `.`-separated segment
 * is the base64url-encoded payload. The payload segment is turned into
 * standard base 64, padded, decoded and handed to the JSON renderer.
 */
module TokenDecode {
  import opened Opt
  import opened Base64

  /** Python's `str.split(sep)` for a single-character separator. */
  function Split(s: string, sep: char): (fields: seq<string>)
    ensures |fields| >= 1
    ensures forall i :: 0 <= i < |fields| ==> sep !in fields[i]
    ensures Join(fields, sep) == s
    decreases |s|
  {
    if |s| == 0 then [[]]
    else
      var rest := Split(s[1..], sep);
      if s[0] == sep then [[]] + rest
      else [[s[0]] + rest[0]] + rest[1..]
  }

  /** `sep.join(fields)`, the inverse of `Split`. */
  function Join(fields: seq<string>, sep: char): string
    requires |fields| >= 1
    decreases |fields|
  {
    if |fields| == 1 then fields[0] else fields[0] + [sep] + Join(fields[1..], sep)
  }

  /** `token.split('.')[1]`; None where Python raises IndexError. */
  function PayloadSegment(token: string): (r: Option<string>)
    ensures r.Some? ==> '.' in token && '.' !in r.value
  {
    var fields := Split(token, '.');
    if |fields| >= 2 then Some(fields[1]) else None
  }

  lemma {:induction false} SplitPrefix(x: string, y: string, sep: char)
    requires sep !in x
    ensures Split(x + y, sep) == [x + Split(y, sep)[0]] + Split(y, sep)[1..]
    decreases |x|
  {
    if |x| == 0 {
      assert x + y == y && x + Split(y, sep)[0] == Split(y, sep)[0];
    } else {
      assert (x + y)[1..] == x[1..] + y;
      SplitPrefix(x[1..], y, sep);
      assert [x[0]] + (x[1..] + Split(y, sep)[0]) == x + Split(y, sep)[0];
    }
  }

  /** The payload segment is exactly the text between the first and the second `.` (or the end). */
  lemma SegmentBetweenFirstTwoDots(header: string, payload: string, tail: string)
    requires '.' !in header && '.' !in payload
    requires tail == [] || tail[0] == '.'
    ensures PayloadSegment(header + "." + payload + tail) == Some(payload)
  {
    var token := header + "." + payload + tail;
    assert token == header + ("." + (payload + tail));
    SplitPrefix(header, "." + (payload + tail), '.');
    assert ("." + (payload + tail))[1..] == payload + tail;
    SplitPrefix(payload, tail, '.');
    assert Split(tail, '.')[0] == [] by {
      if tail != [] { assert tail[0] == '.'; }
    }
    assert payload + Split(tail, '.')[0] == payload;
  }

  /** A token without `.` has no segment at index 1: the IndexError case. */
  lemma NoSegmentIffNoDot(token: string)
    ensures PayloadSegment(token).None? <==> '.' !in token
  {
    var fields := Split(token, '.');
    if '.' !in token {
      SplitPrefix(token, [], '.');
      assert token + [] == token;
    }
  }

  /** Python's `str.replace(from, to)` for single characters. */
  function Replace(s: string, from: char, to: char): (r: string)
    ensures |r| == |s|
    ensures forall i :: 0 <= i < |s| ==> r[i] == (if s[i] == from then to else s[i])
    decreases |s|
  {
    if |s| == 0 then [] else [if s[0] == from then to else s[0]] + Replace(s[1..], from, to)
  }

  /** The alphabet change of one character: base64url's `-` and `_` become `+` and `/`. */
  function NormalChar(c: char): char {
    if c == '-' then '+' else if c == '_' then '/' else c
  }

  /** `temp.replace('-', '+').replace('_', '/')`. */
  function Normalise(s: string): (r: string)
    ensures |r| == |s|
  {
    Replace(Replace(s, '-', '+'), '_', '/')
  }

  /**
   * Normalisation rewrites each `-` to `+` and each `_` to `/`, keeps every other
   * character, the order and the length, and leaves no `-` or `_` behind.
   */
  lemma NormaliseSpec(s: string)
    ensures |Normalise(s)| == |s|
    ensures forall i :: 0 <= i < |s| ==> Normalise(s)[i] == NormalChar(s[i])
    ensures '-' !in Normalise(s) && '_' !in Normalise(s)
  {
  }

  lemma {:induction false} NormaliseAppend(x: string, y: string)
    ensures Normalise(x + y) == Normalise(x) + Normalise(y)
  {
    NormaliseSpec(x);
    NormaliseSpec(y);
    NormaliseSpec(x + y);
  }

  lemma NormalUrlChar(v: sextet)
    ensures NormalChar(UrlChar(v)) == StdChar(v)
  {
  }

  lemma NormaliseQuantum(b0: byte, b1: byte, b2: byte)
    ensures Normalise(Quantum(b0, b1, b2, true)) == Quantum(b0, b1, b2, false)
  {
    NormaliseSpec(Quantum(b0, b1, b2, true));
    NormalUrlChar(V0(b0));
    NormalUrlChar(V1(b0, b1));
    NormalUrlChar(V2(b1, b2));
    NormalUrlChar(V3(b2));
  }

  lemma NormalisePrefix(s: string, k: nat)
    requires k <= |s|
    ensures Normalise(s[..k]) == Normalise(s)[..k]
  {
    NormaliseSpec(s);
    NormaliseSpec(s[..k]);
  }

  /** Normalisation turns the base64url encoding into the standard one, character for character. */
  lemma {:induction false} NormaliseUrlChars(b: seq<byte>)
    ensures Normalise(Chars(b, true)) == Chars(b, false)
    decreases |b|
  {
    if |b| == 1 || |b| == 2 {
      var b1: byte := if |b| == 2 then b[1] else 0;
      NormalisePrefix(Quantum(b[0], b1, 0, true), |b| + 1);
      NormaliseQuantum(b[0], b1, 0);
    } else if |b| >= 3 {
      NormaliseUrlChars(b[3..]);
      NormaliseAppend(Quantum(b[0], b[1], b[2], true), Chars(b[3..], true));
      NormaliseQuantum(b[0], b[1], b[2]);
    }
  }

  /** The `=` characters `while len(temp) % 4 != 0: temp += '='` appends. */
  function Padded(s: string): (r: string)
    ensures |r| % 4 == 0
    ensures s <= r && |r| - |s| <= 3
    ensures forall i :: |s| <= i < |r| ==> r[i] == '='
  {
    s + seq((4 - |s| % 4) % 4, _ => '=')
  }

  /** Padding adds nothing to a string whose length is already a multiple of 4; so padding twice is padding once. */
  lemma PaddedIdempotent(s: string)
    ensures |s| % 4 == 0 ==> Padded(s) == s
    ensures Padded(Padded(s)) == Padded(s)
  {
    assert Padded(s) + [] == Padded(s);
  }

  /** The padding loop of `Worker.run`. */
  method PadToQuad(s: string) returns (r: string)
    ensures r == Padded(s)
  {
    r := s;
    while |r| % 4 != 0
      invariant s <= r && |r| - |s| <= (4 - |s| % 4) % 4
      invariant forall i :: |s| <= i < |r| ==> r[i] == '='
      decreases (4 - |s| % 4) % 4 - (|r| - |s|)
    {
      r := r + "=";
    }
    assert r == Padded(s);
  }

  /** Padding the unpadded standard characters restores the padded encoding of RFC 4648 section 4. */
  lemma {:induction false} PaddedChars(b: seq<byte>)
    ensures Padded(Chars(b, false)) == Encode(b)
    decreases |b|
  {
    if |b| >= 3 {
      var q := Quantum(b[0], b[1], b[2], false);
      PaddedChars(b[3..]);
      PaddedAfterQuantum(q, Chars(b[3..], false));
      EncodeCons(b);
      assert Chars(b, false) == q + Chars(b[3..], false);
    } else if |b| == 1 {
      PaddedOne(b);
    } else if |b| == 2 {
      PaddedTwo(b);
    }
  }

  /** The final byte: padding its two characters adds the `==` of the encoding. */
  lemma PaddedOne(b: seq<byte>)
    requires |b| == 1
    ensures Padded(Chars(b, false)) == Encode(b)
  {
    var s := Quantum(b[0], 0, 0, false)[..2];
    assert Chars(b, false) == s;
    assert Encode(b) == s + "==";
    assert (4 - |s| % 4) % 4 == 2;
  }

  /** The final two bytes: padding their three characters adds the `=` of the encoding. */
  lemma PaddedTwo(b: seq<byte>)
    requires |b| == 2
    ensures Padded(Chars(b, false)) == Encode(b)
  {
    var s := Quantum(b[0], b[1], 0, false)[..3];
    assert Chars(b, false) == s;
    assert Encode(b) == s + "=";
    assert (4 - |s| % 4) % 4 == 1;
  }

  /** A full quantum in front does not change how much padding is added. */
  lemma PaddedAfterQuantum(q: string, s: string)
    requires |q| == 4
    ensures Padded(q + s) == q + Padded(s)
  {
    assert |q + s| % 4 == |s| % 4;
  }

  /**
   * The decode steps invert base64url: normalising, padding and decoding the
   * unpadded base64url encoding of any bytes gives those bytes back.
   */
  lemma UrlRoundTrip(b: seq<byte>)
    ensures B64Decode(Padded(Normalise(UrlEncodeUnpadded(b)))) == Bytes(b)
  {
    NormaliseUrlChars(b);
    PaddedChars(b);
    EncodeRoundTrip(b);
  }

  /** A payload whose characters are all in one of the two alphabets. */
  predicate IsBase64Text(p: string) {
    forall i :: 0 <= i < |p| ==> SextetOf(NormalChar(p[i])).Some?
  }

  /**
   * For a payload over the two alphabets, decoding fails exactly when its length
   * is one more than a multiple of 4, the one length no byte string encodes to.
   */
  lemma DecodeFailsIff(p: string)
    requires IsBase64Text(p)
    ensures B64Decode(Padded(Normalise(p))).BinasciiError? <==> |p| % 4 == 1
    ensures B64Decode(Padded(Normalise(p))).NotAscii? == false
  {
    var s := Normalise(p);
    NormaliseSpec(p);
    assert AllData(s);
    var k := (4 - |s| % 4) % 4;
    assert Padded(s) == s + seq(k, _ => '=');
    assert IsAscii(Padded(s)) by {
      forall i | 0 <= i < |Padded(s)| ensures Padded(s)[i] as int < 128 {
        if i < |s| { assert SextetOf(s[i]).Some?; StdCharAscii(SextetOf(s[i]).value); }
      }
    }
    A2bAbsorb(s, seq(k, _ => '='), Start);
    ClosingPads(Absorb(s, Start));
  }

  /** What `json.dumps(json.loads(payload), ensure_ascii=False, indent=4)` gives for decoded bytes. */
  datatype Json = Rendered(text: string) | ParseError

  /** An exception of the decode block that its binascii.Error handler does not catch. */
  datatype TokenError =
    | NoPayloadSegment   // IndexError from `split('.')[1]`
    | NonAsciiPayload    // ValueError from b64decode on a non-ASCII str
    | JsonParseFailure   // ValueError from json.loads

  /** The result of the decode block for one signed transaction. */
  datatype TokenOutcome = Emit(text: string) | Raise(error: TokenError)

  /** The rendered outcome of a decoded payload: only binascii.Error falls back to the raw token. */
  function RenderOutcome(j: Json): TokenOutcome {
    match j
    case Rendered(text) => Emit(text)
    case ParseError => Raise(JsonParseFailure)
  }

  /**
   * The decode block of `Worker.run` for one signed transaction: the rendered
   * payload, the raw token when base 64 decoding raises binascii.Error, or the
   * exception that escapes.
   */
  function TokenMessage(token: string, render: seq<byte> -> Json): (r: TokenOutcome)
    ensures r == Raise(NoPayloadSegment) <==> '.' !in token
    ensures r.Emit? ==> PayloadSegment(token).Some?
  {
    NoSegmentIffNoDot(token);
    match PayloadSegment(token)
    case None => Raise(NoPayloadSegment)
    case Some(segment) =>
      match B64Decode(Padded(Normalise(segment)))
      case NotAscii => Raise(NonAsciiPayload)
      case BinasciiError(_) => Emit(token)
      case Bytes(payload) => RenderOutcome(render(payload))
  }


  /**
   * A well-formed token whose payload segment is the base64url encoding of some
   * bytes yields what the renderer makes of exactly those bytes; a JSON failure
   * is not turned into the raw token.
   */
  lemma TokenRoundTrip(header: string, payload: seq<byte>, tail: string, render: seq<byte> -> Json)
    requires '.' !in header
    requires tail == [] || tail[0] == '.'
    ensures TokenMessage(header + "." + UrlEncodeUnpadded(payload) + tail, render) == RenderOutcome(render(payload))
  {
    var p := UrlEncodeUnpadded(payload);
    assert '.' !in p;
    SegmentBetweenFirstTwoDots(header, p, tail);
    UrlRoundTrip(payload);
  }

  /**
   * Every binascii.Error on the payload segment makes the worker emit the token
   * unchanged. Over the base 64 alphabets that happens exactly for a segment with
   * one character too many, and every other length decodes.
   */
  lemma RawTokenFallback(header: string, segment: string, tail: string, render: seq<byte> -> Json)
    requires '.' !in header && '.' !in segment
    requires tail == [] || tail[0] == '.'
    ensures var token := header + "." + segment + tail;
            B64Decode(Padded(Normalise(segment))).BinasciiError? ==> TokenMessage(token, render) == Emit(token)
    ensures var token := header + "." + segment + tail;
            IsBase64Text(segment) && |segment| % 4 == 1 ==> TokenMessage(token, render) == Emit(token)
    ensures IsBase64Text(segment) && |segment| % 4 != 1 ==> B64Decode(Padded(Normalise(segment))).Bytes?
  {
    SegmentBetweenFirstTwoDots(header, segment, tail);
    if IsBase64Text(segment) {
      DecodeFailsIff(segment);
    }
  }

  /** `h.ab!c`: the decoder skips `!`, is left three characters into a quantum, and the token is emitted as is. */
  lemma SkippedCharFallback(render: seq<byte> -> Json)
    ensures TokenMessage("h.ab!c", render) == Emit("h.ab!c")
  {
    assert "h.ab!c" == "h" + "." + "ab!c" + "";
    RawTokenFallback("h", "ab!c", "", render);
    assert Normalise("ab!c") == "ab!c";
    assert Padded("ab!c") == "ab!c";
    SkippedCharDecode();
  }

  lemma SkippedCharDecode()
    ensures B64Decode("ab!c") == BinasciiError(IncorrectPadding)
  {
    var s := "ab!c";
    ReadData(s, Start, 26);
    var s1 := Step(Start, 26);
    ReadData(s[1..], s1, 27);
    var s2 := Step(s1, 27);
    assert s[1..][1..] == "!c";
    assert SextetOf('!') == None;
    assert A2b("!c", s2) == A2b("c", s2);
    ReadData("c", s2, 28);
    assert Step(s2, 28).quadPos == 3;
  }

  /** A token without `.` raises IndexError, which the binascii.Error handler does not catch. */
  lemma NoDotRaises(token: string, render: seq<byte> -> Json)
    requires '.' !in token
    ensures TokenMessage(token, render) == Raise(NoPayloadSegment)
  {
    NoSegmentIffNoDot(token);
  }

  lemma ExampleEncoding(payload: seq<byte>)
    requires payload == [123, 34, 97, 34, 58, 49, 125]
    ensures UrlEncodeUnpadded(payload) == "eyJhIjoxfQ"
  {
    assert payload[3..] == [34, 58, 49, 125];
    assert payload[3..][3..] == [125];
    assert Quantum(123, 34, 97, true) == "eyJh";
    assert Quantum(34, 58, 49, true) == "Ijox";
    assert Quantum(125, 0, 0, true)[..2] == "fQ";
    assert Chars([125], true) == "fQ";
    assert Chars(payload[3..], true) == "Ijox" + "fQ";
    assert Chars(payload, true) == "eyJh" + ("Ijox" + "fQ");
  }

  lemma ExampleTokenParts()
    ensures "AAA.eyJhIjoxfQ.BBB" == "AAA" + "." + "eyJhIjoxfQ" + ".BBB"
  {
  }

  /** The payload segment of `AAA.eyJhIjoxfQ.BBB` decodes to the bytes of `{"a":1}`. */
  lemma ExampleToken(render: seq<byte> -> Json)
    ensures TokenMessage("AAA.eyJhIjoxfQ.BBB", render) == RenderOutcome(render([123, 34, 97, 34, 58, 49, 125]))
  {
    var payload: seq<byte> := [123, 34, 97, 34, 58, 49, 125];
    ExampleTokenParts();
    ExampleEncoding(payload);
    TokenRoundTrip("AAA", payload, ".BBB", render);
  }
}
