/** Bytes, base64 (section 4 of RFC 4648) and block padding (section 6.3 of RFC 5652). */
module Base64 {
  import opened Common

  type Byte = b: int | 0 <= b < 256
  type Bytes = seq<Byte>

  const PADDING: Byte := 61  // '='

  function Letter(i: int): Byte
    requires 0 <= i < 64
  {
    if i < 26 then 65 + i
    else if i < 52 then 97 + (i - 26)
    else if i < 62 then 48 + (i - 52)
    else if i == 62 then 43 else 47
  }

  function Sextet(c: Byte): (r: Option<int>)
    ensures r.Some? ==> 0 <= r.value < 64
  {
    if 65 <= c <= 90 then Some(c - 65)
    else if 97 <= c <= 122 then Some(c - 97 + 26)
    else if 48 <= c <= 57 then Some(c - 48 + 52)
    else if c == 43 then Some(62)
    else if c == 47 then Some(63)
    else None
  }

  /** Three bytes as four sextets. */
  function Group(a: Byte, b: Byte, c: Byte): Bytes {
    [Letter(a / 4), Letter(a % 4 * 16 + b / 16), Letter(b % 16 * 4 + c / 64), Letter(c % 64)]
  }

  function Encode(data: Bytes): Bytes {
    if |data| == 0 then []
    else if |data| == 1 then [Letter(data[0] / 4), Letter(data[0] % 4 * 16), PADDING, PADDING]
    else if |data| == 2 then
      [Letter(data[0] / 4), Letter(data[0] % 4 * 16 + data[1] / 16), Letter(data[1] % 16 * 4), PADDING]
    else Group(data[0], data[1], data[2]) + Encode(data[3..])
  }

  function First(p: int, q: int): Byte
    requires 0 <= p < 64 && 0 <= q < 64
  {
    p * 4 + q / 16
  }

  function Second(q: int, r: int): Byte
    requires 0 <= q < 64 && 0 <= r < 64
  {
    q % 16 * 16 + r / 4
  }

  function Third(r: int, s: int): Byte
    requires 0 <= r < 64 && 0 <= s < 64
  {
    r % 4 * 64 + s
  }

  /** Four letters as up to three bytes; padding stands only at the end. */
  function Quad(w: Byte, x: Byte, y: Byte, z: Byte): Option<Bytes> {
    match (Sextet(w), Sextet(x))
    case (Some(p), Some(q)) =>
      if z == PADDING && y == PADDING then Some([First(p, q)])
      else (match Sextet(y)
        case None => None
        case Some(r) =>
          if z == PADDING then Some([First(p, q), Second(q, r)])
          else match Sextet(z)
            case None => None
            case Some(s) => Some([First(p, q), Second(q, r), Third(r, s)]))
    case _ => None
  }

  function Decode(text: Bytes): Option<Bytes> {
    if text == [] then Some([])
    else if |text| < 4 then None
    else
      match Quad(text[0], text[1], text[2], text[3])
      case None => None
      case Some(bytes) =>
        if text[3] == PADDING then if |text| == 4 then Some(bytes) else None
        else match Decode(text[4..])
          case None => None
          case Some(rest) => Some(bytes + rest)
  }

  lemma SextetOfLetter(i: int)
    requires 0 <= i < 64
    ensures Sextet(Letter(i)) == Some(i) && Letter(i) != PADDING
  {
  }

  lemma BytesOfSextets(a: Byte, b: Byte, c: Byte)
    ensures First(a / 4, a % 4 * 16 + b / 16) == a
    ensures Second(a % 4 * 16 + b / 16, b % 16 * 4 + c / 64) == b
    ensures Third(b % 16 * 4 + c / 64, c % 64) == c
  {
  }

  lemma QuadOfThree(a: Byte, b: Byte, c: Byte)
    ensures Quad(Letter(a / 4), Letter(a % 4 * 16 + b / 16), Letter(b % 16 * 4 + c / 64), Letter(c % 64))
         == Some([a, b, c])
    ensures Letter(c % 64) != PADDING
  {
    BytesOfSextets(a, b, c);
    SextetOfLetter(a / 4);
    SextetOfLetter(a % 4 * 16 + b / 16);
    SextetOfLetter(b % 16 * 4 + c / 64);
    SextetOfLetter(c % 64);
  }

  lemma QuadOfTwo(a: Byte, b: Byte)
    ensures Quad(Letter(a / 4), Letter(a % 4 * 16 + b / 16), Letter(b % 16 * 4), PADDING) == Some([a, b])
  {
    BytesOfSextets(a, b, 0);
    SextetOfLetter(a / 4);
    SextetOfLetter(a % 4 * 16 + b / 16);
    SextetOfLetter(b % 16 * 4);
  }

  lemma QuadOfOne(a: Byte)
    ensures Quad(Letter(a / 4), Letter(a % 4 * 16), PADDING, PADDING) == Some([a])
  {
    BytesOfSextets(a, 0, 0);
    SextetOfLetter(a / 4);
    SextetOfLetter(a % 4 * 16);
  }

  lemma WholeGroupDecodes(a: Byte, b: Byte, c: Byte, tail: Bytes, rest: Bytes)
    requires Decode(tail) == Some(rest)
    ensures Decode(Group(a, b, c) + tail) == Some([a, b, c] + rest)
  {
    var text := Group(a, b, c) + tail;
    QuadOfThree(a, b, c);
    assert text[4..] == tail;
  }

  lemma {:induction false} DecodeInvertsEncode(data: Bytes)
    ensures Decode(Encode(data)) == Some(data)
  {
    if |data| == 0 {
    } else if |data| == 1 {
      QuadOfOne(data[0]);
      assert [data[0]] == data;
    } else if |data| == 2 {
      QuadOfTwo(data[0], data[1]);
      assert [data[0], data[1]] == data;
    } else {
      var rest := data[3..];
      DecodeInvertsEncode(rest);
      WholeGroupDecodes(data[0], data[1], data[2], Encode(rest), rest);
      assert [data[0], data[1], data[2]] + rest == data;
    }
  }

  /** "foobar" of section 10 of RFC 4648, and the last two letters of the alphabet. */
  lemma KnownAnswers()
    ensures Encode([102]) == [90, 103, 61, 61]
    ensures Encode([102, 111]) == [90, 109, 56, 61]
    ensures Encode([102, 111, 111, 98, 97, 114]) == [90, 109, 57, 118, 89, 109, 70, 121]
    ensures Encode([251, 255]) == [43, 47, 56, 61]
  {
    var foobar: Bytes := [102, 111, 111, 98, 97, 114];
    assert foobar[3..] == [98, 97, 114] && foobar[3..][3..] == [];
  }

  const BLOCK := 16

  /** One to sixteen bytes, each the number of bytes added. */
  function Pad(data: Bytes): (r: Bytes)
    ensures |r| % BLOCK == 0 && |r| > 0
  {
    var n := BLOCK - |data| % BLOCK;
    data + seq(n, _ => n)
  }

  function Unpad(data: Bytes): Option<Bytes> {
    if data == [] then None
    else
      var n := data[|data| - 1];
      if 1 <= n <= BLOCK && n <= |data| && forall i :: |data| - n <= i < |data| ==> data[i] == n
      then Some(data[..|data| - n])
      else None
  }

  lemma UnpadInvertsPad(data: Bytes)
    ensures Unpad(Pad(data)) == Some(data)
  {
    var n := BLOCK - |data| % BLOCK;
    assert Pad(data)[..|data|] == data;
  }
}
