/** The base 64 encoding of section 4 of RFC 4648 (alphabet A-Z a-z 0-9 + /, padding
    with '='), used by every script to put the rendered image into a response body. */
module Base64 {
  import opened Common

  /** The character of a 6-bit value, as in Table 1 of RFC 4648. */
  function CharOf(i: int): (c: char)
    requires 0 <= i < 64
  {
    if i < 26 then ('A' as int + i) as char
    else if i < 52 then ('a' as int + i - 26) as char
    else if i < 62 then ('0' as int + i - 52) as char
    else if i == 62 then '+'
    else '/'
  }

  /** The 6-bit value of an alphabet character; None for any other character. */
  function ValueOf(c: char): (r: Option<int>)
    ensures r.Some? ==> 0 <= r.value < 64 && CharOf(r.value) == c
  {
    if 'A' <= c <= 'Z' then Some(c as int - 'A' as int)
    else if 'a' <= c <= 'z' then Some(c as int - 'a' as int + 26)
    else if '0' <= c <= '9' then Some(c as int - '0' as int + 52)
    else if c == '+' then Some(62)
    else if c == '/' then Some(63)
    else None
  }

  /** Every 6-bit value is written as a distinct character that reads back as itself. */
  lemma ValueOfCharOf(i: int)
    requires 0 <= i < 64
    ensures ValueOf(CharOf(i)) == Some(i)
  {
  }

  /** Three bytes, 24 bits, as four characters. */
  function EncodeGroup(b0: byte, b1: byte, b2: byte): string {
    [CharOf(b0 as int / 4), CharOf(b0 as int % 4 * 16 + b1 as int / 16),
     CharOf(b1 as int % 16 * 4 + b2 as int / 64), CharOf(b2 as int % 64)]
  }

  /** base64.b64encode: whole groups, then a final group padded with '='. */
  function Encode(b: seq<byte>): (r: string)
    ensures |r| == (|b| + 2) / 3 * 4
  {
    if |b| >= 3 then
      assert (|b| + 2) / 3 == (|b[3..]| + 2) / 3 + 1;
      EncodeGroup(b[0], b[1], b[2]) + Encode(b[3..])
    else if |b| == 2 then
      [CharOf(b[0] as int / 4), CharOf(b[0] as int % 4 * 16 + b[1] as int / 16),
       CharOf(b[1] as int % 16 * 4), '=']
    else if |b| == 1 then
      [CharOf(b[0] as int / 4), CharOf(b[0] as int % 4 * 16), '=', '=']
    else []
  }

  /** Four alphabet characters as three bytes. */
  function DecodeGroup(c0: char, c1: char, c2: char, c3: char): Option<seq<byte>> {
    match (ValueOf(c0), ValueOf(c1), ValueOf(c2), ValueOf(c3))
    case (Some(a), Some(b), Some(c), Some(d)) =>
      Some([(a * 4 + b / 16) as byte, (b % 16 * 16 + c / 4) as byte, (c % 4 * 64 + d) as byte])
    case _ => None
  }

  /** The final group, which may end in one or two '=' padding characters. */
  function DecodeFinal(c0: char, c1: char, c2: char, c3: char): Option<seq<byte>> {
    if c2 == '=' && c3 == '=' then
      match (ValueOf(c0), ValueOf(c1))
      case (Some(a), Some(b)) => Some([(a * 4 + b / 16) as byte])
      case _ => None
    else if c3 == '=' then
      match (ValueOf(c0), ValueOf(c1), ValueOf(c2))
      case (Some(a), Some(b), Some(c)) => Some([(a * 4 + b / 16) as byte, (b % 16 * 16 + c / 4) as byte])
      case _ => None
    else DecodeGroup(c0, c1, c2, c3)
  }

  /** Strict decoding: the length is a multiple of four and only the last group
      may carry padding; anything else is rejected with None. */
  function Decode(s: string): Option<seq<byte>>
  {
    if s == [] then Some([])
    else if |s| < 4 then None
    else if |s| == 4 then DecodeFinal(s[0], s[1], s[2], s[3])
    else
      match (DecodeGroup(s[0], s[1], s[2], s[3]), Decode(s[4..]))
      case (Some(g), Some(rest)) => Some(g + rest)
      case _ => None
  }

  lemma GroupRoundTrip(b0: byte, b1: byte, b2: byte)
    ensures DecodeGroup(EncodeGroup(b0, b1, b2)[0], EncodeGroup(b0, b1, b2)[1],
                        EncodeGroup(b0, b1, b2)[2], EncodeGroup(b0, b1, b2)[3]) == Some([b0, b1, b2])
  {
    var x, y, z := b0 as int, b1 as int, b2 as int;
    ValueOfCharOf(x / 4);
    ValueOfCharOf(x % 4 * 16 + y / 16);
    ValueOfCharOf(y % 16 * 4 + z / 64);
    ValueOfCharOf(z % 64);
    assert (x % 4 * 16 + y / 16) / 16 == x % 4;
    assert (x % 4 * 16 + y / 16) % 16 == y / 16;
    assert (y % 16 * 4 + z / 64) / 4 == y % 16;
    assert (y % 16 * 4 + z / 64) % 4 == z / 64;
  }

  lemma PaddedTwoRoundTrip(b0: byte, b1: byte)
    ensures Decode(Encode([b0, b1])) == Some([b0, b1])
  {
    var x, y := b0 as int, b1 as int;
    ValueOfCharOf(x / 4);
    ValueOfCharOf(x % 4 * 16 + y / 16);
    ValueOfCharOf(y % 16 * 4);
    assert (x % 4 * 16 + y / 16) / 16 == x % 4;
    assert (x % 4 * 16 + y / 16) % 16 == y / 16;
    assert (y % 16 * 4) / 4 == y % 16;
  }

  lemma PaddedOneRoundTrip(b0: byte)
    ensures Decode(Encode([b0])) == Some([b0])
  {
    var x := b0 as int;
    ValueOfCharOf(x / 4);
    ValueOfCharOf(x % 4 * 16);
    assert (x % 4 * 16) / 16 == x % 4;
  }

  /** Decoding the encoding of any byte string gives that byte string back. */
  lemma {:induction false} DecodeEncode(b: seq<byte>)
    ensures Decode(Encode(b)) == Some(b)
  {
    if |b| >= 3 {
      var g := EncodeGroup(b[0], b[1], b[2]);
      var s := g + Encode(b[3..]);
      GroupRoundTrip(b[0], b[1], b[2]);
      DecodeEncode(b[3..]);
      assert s[..4] == g && s[4..] == Encode(b[3..]);
      assert b == [b[0], b[1], b[2]] + b[3..];
      assert s[0] == g[0] && s[1] == g[1] && s[2] == g[2] && s[3] == g[3];
      if |b| == 3 {
        assert g[3] != '=';
        assert DecodeFinal(g[0], g[1], g[2], g[3]) == DecodeGroup(g[0], g[1], g[2], g[3]);
        assert b == [b[0], b[1], b[2]];
      }
    } else if |b| == 2 {
      PaddedTwoRoundTrip(b[0], b[1]);
      assert b == [b[0], b[1]];
    } else if |b| == 1 {
      PaddedOneRoundTrip(b[0]);
      assert b == [b[0]];
    }
  }

  /** Distinct byte strings have distinct encodings. */
  lemma EncodeInjective(a: seq<byte>, b: seq<byte>)
    requires Encode(a) == Encode(b)
    ensures a == b
  {
    DecodeEncode(a);
    DecodeEncode(b);
  }
}

/** The response every handler returns (`returnimg`): the image file, base64 encoded,
    in an HTTP-response-shaped record. */
module ImageResponse {
  import opened Common
  import Base64

  datatype Response = Response(headers: map<string, string>, statusCode: int,
                               body: string, isBase64Encoded: bool)

  /** The files the handler can see: path to contents. */
  type Files = map<string, seq<byte>>

  datatype Error = FileNotFound(path: string)

  /** Reads the image file at `path` and wraps it with the given content type. */
  function ReturnImg(files: Files, path: string, contentType: string): (r: Result<Response, Error>)
    ensures path !in files <==> r == Err(FileNotFound(path))
    ensures r.Ok? ==> && r.value.statusCode == 200
                      && r.value.isBase64Encoded
                      && r.value.headers == map["Content-Type" := contentType]
                      && Base64.Decode(r.value.body) == Some(files[path])
  {
    if path !in files then Err(FileNotFound(path))
    else
      Base64.DecodeEncode(files[path]);
      Ok(Response(map["Content-Type" := contentType], 200, Base64.Encode(files[path]), true))
  }

  /** A handler's tail: the renderer saves `image` at `savedAt` and returns `returned`,
      which is then read back. When the two paths agree the response carries exactly
      the rendered bytes. */
  lemma SaveThenReturn(files: Files, savedAt: string, image: seq<byte>, contentType: string)
    ensures var r := ReturnImg(files[savedAt := image], savedAt, contentType);
            r.Ok? && Base64.Decode(r.value.body) == Some(image) && r.value.statusCode == 200
  {
  }
}
