/** The Laravel envelope in which the panel keeps daemon tokens and database passwords:
    PHP serialisation, CBC (section 6.2 of NIST SP 800-38A), base64, JSON, base64 again. */
module Laravel {
  import opened Common
  import opened Base64

  // ----- Bitwise exclusive or -----

  function PowerOfTwo(k: nat): nat {
    if k == 0 then 1 else 2 * PowerOfTwo(k - 1)
  }

  function XorBits(a: nat, b: nat, k: nat): (r: nat)
    ensures r < PowerOfTwo(k)
    decreases k
  {
    if k == 0 then 0
    else (if a % 2 == b % 2 then 0 else 1) + 2 * XorBits(a / 2, b / 2, k - 1)
  }

  lemma {:induction false} XorTwice(a: nat, b: nat, k: nat)
    requires a < PowerOfTwo(k)
    ensures XorBits(XorBits(a, b, k), b, k) == a
    decreases k
  {
    if k == 0 {
    } else {
      XorTwice(a / 2, b / 2, k - 1);
    }
  }

  lemma EightBits()
    ensures PowerOfTwo(8) == 256
  {
    assert PowerOfTwo(4) == 16;
    assert PowerOfTwo(8) == 2 * (2 * (2 * (2 * PowerOfTwo(4))));
  }

  function Xor(a: Byte, b: Byte): Byte {
    EightBits();
    XorBits(a, b, 8)
  }

  function XorBlock(x: Bytes, y: Bytes): (r: Bytes)
    requires |x| == |y|
    ensures |r| == |x|
  {
    seq(|x|, i requires 0 <= i < |x| => Xor(x[i], y[i]))
  }

  lemma XorBlockTwice(x: Bytes, y: Bytes)
    requires |x| == |y|
    ensures XorBlock(XorBlock(x, y), y) == x
  {
    forall i | 0 <= i < |x| ensures Xor(Xor(x[i], y[i]), y[i]) == x[i] {
      EightBits();
      XorTwice(x[i], y[i], 8);
    }
  }

  // ----- What the host provides -----

  datatype Envelope = Envelope(iv: Bytes, value: Bytes, mac: Bytes, tag: Bytes)

  /** The block cipher under the application key, the MAC, JSON and UTF-8. */
  datatype Host = Host(
    encipher: Bytes -> Bytes,
    decipher: Bytes -> Bytes,
    mac: Bytes -> Bytes,
    dumps: Envelope -> Bytes,
    loads: Bytes -> Option<Envelope>,
    utf8: string -> Bytes,
    decodeUtf8: Bytes -> Option<string>)

  const NEWLINE: Byte := 10

  /** The assumed laws: the cipher is invertible block by block, JSON and UTF-8 read back what they wrote, UTF-8
      decoding is strict, only a line feed encodes to the byte 10, and ASCII characters are one byte each. */
  ghost predicate Lawful(h: Host) {
    && (forall b: Bytes {:trigger h.encipher(b)} :: |b| == BLOCK ==>
          |h.encipher(b)| == BLOCK && h.decipher(h.encipher(b)) == b)
    && (forall b: Bytes {:trigger h.decipher(b)} :: |b| == BLOCK ==> |h.decipher(b)| == BLOCK)
    && (forall e: Envelope {:trigger h.dumps(e)} :: h.loads(h.dumps(e)) == Some(e))
    && (forall s: string {:trigger h.utf8(s)} ::
          && h.decodeUtf8(h.utf8(s)) == Some(s)
          && (h.utf8(s) == [] <==> s == "")
          && (NEWLINE in h.utf8(s) <==> '\n' in s)
          && ((forall i :: 0 <= i < |s| ==> s[i] as int < 128) ==> |h.utf8(s)| == |s|))
    && (forall b: Bytes {:trigger h.decodeUtf8(b)} :: h.decodeUtf8(b).Some? ==> h.utf8(h.decodeUtf8(b).value) == b)
  }

  // ----- CBC -----

  function EncryptBlocks(h: Host, previous: Bytes, data: Bytes): Bytes
    requires |data| % BLOCK == 0
    decreases |data|
  {
    if data == [] || |previous| != BLOCK then []
    else
      var block := h.encipher(XorBlock(data[..BLOCK], previous));
      block + EncryptBlocks(h, block, data[BLOCK..])
  }

  /** None where the library raises: a length that is no number of blocks. */
  function DecryptBlocks(h: Host, previous: Bytes, data: Bytes): Option<Bytes>
    decreases |data|
  {
    if data == [] then Some([])
    else if |data| < BLOCK || |previous| != BLOCK then None
    else
      var block := h.decipher(data[..BLOCK]);
      match DecryptBlocks(h, data[..BLOCK], data[BLOCK..])
      case None => None
      case Some(rest) => if |block| != BLOCK then None else Some(XorBlock(block, previous) + rest)
  }

  lemma {:induction false} DecryptInvertsEncryptBlocks(h: Host, previous: Bytes, data: Bytes)
    requires Lawful(h) && |previous| == BLOCK && |data| % BLOCK == 0
    ensures DecryptBlocks(h, previous, EncryptBlocks(h, previous, data)) == Some(data)
    decreases |data|
  {
    if data == [] {
    } else {
      var plain := XorBlock(data[..BLOCK], previous);
      var block := h.encipher(plain);
      var tail := EncryptBlocks(h, block, data[BLOCK..]);
      DecryptInvertsEncryptBlocks(h, block, data[BLOCK..]);
      XorBlockTwice(data[..BLOCK], previous);
      assert (block + tail)[..BLOCK] == block && (block + tail)[BLOCK..] == tail;
      assert data[..BLOCK] + data[BLOCK..] == data;
    }
  }

  // ----- PHP serialisation and the pattern that undoes it -----

  const LETTER_S: Byte := 115
  const COLON: Byte := 58
  const QUOTE: Byte := 34
  const SEMICOLON: Byte := 59

  function Decimal(n: nat): Bytes {
    if n < 10 then [48 + n] else Decimal(n / 10) + [48 + n % 10]
  }

  predicate IsDigit(b: Byte) {
    48 <= b <= 57
  }

  predicate AllDigits(s: Bytes) {
    forall i :: 0 <= i < |s| ==> IsDigit(s[i])
  }

  lemma {:induction false} DecimalIsDigits(n: nat)
    ensures AllDigits(Decimal(n)) && Decimal(n) != []
  {
    if n < 10 {
    } else {
      DecimalIsDigits(n / 10);
    }
  }

  /** `s:LEN:"VALUE";` where LEN counts characters, not the bytes of VALUE. */
  function Serialise(length: nat, value: Bytes): Bytes {
    [LETTER_S, COLON] + Decimal(length) + [COLON, QUOTE] + value + [QUOTE, SEMICOLON]
  }

  function LeadingDigits(s: Bytes): (n: nat)
    ensures n <= |s| && AllDigits(s[..n]) && (n < |s| ==> !IsDigit(s[n]))
  {
    if s != [] && IsDigit(s[0]) then
      var n := 1 + LeadingDigits(s[1..]);
      assert s[..n] == [s[0]] + s[1..][..n - 1];
      n
    else 0
  }

  lemma LeadingDigitsIs(s: Bytes, k: nat)
    requires k <= |s| && AllDigits(s[..k]) && (k < |s| ==> !IsDigit(s[k]))
    ensures LeadingDigits(s) == k
  {
    var n := LeadingDigits(s);
    assert forall i :: 0 <= i < k ==> s[..k][i] == s[i];
    assert forall i :: 0 <= i < n ==> s[..n][i] == s[i];
  }

  /** The bytes before the first line feed, which `.` does not match. */
  function FirstLine(s: Bytes): (n: nat)
    ensures n <= |s| && NEWLINE !in s[..n] && (n < |s| ==> s[n] == NEWLINE)
  {
    if s == [] || s[0] == NEWLINE then 0
    else
      var n := 1 + FirstLine(s[1..]);
      assert s[..n] == [s[0]] + s[1..][..n - 1];
      n
  }

  predicate Terminator(s: Bytes, i: int) {
    1 <= i < |s| - 1 && s[i] == QUOTE && s[i + 1] == SEMICOLON
  }

  /** The last `";` that leaves at least one byte before it, or 0. */
  function LastTerminator(s: Bytes, below: nat): (i: nat)
    ensures i == 0 || (i < below && Terminator(s, i))
    ensures forall k :: i < k < below ==> !Terminator(s, k)
  {
    if below == 0 then 0
    else if Terminator(s, below - 1) then below - 1
    else LastTerminator(s, below - 1)
  }

  /** `re.match(rb's:\d+:"(.+)";', text)`: greedy, anchored at the start only. */
  function Match(text: Bytes): Option<Bytes> {
    if !([LETTER_S, COLON] <= text) then None
    else
      var n := LeadingDigits(text[2..]);
      var rest := text[2 + n..];
      if n == 0 || !([COLON, QUOTE] <= rest) then None
      else
        var body := rest[2..];
        var i := LastTerminator(body[..FirstLine(body)], FirstLine(body));
        if i == 0 then None else Some(body[..i])
  }

  /** `text` is `s:` digits `:"` group `";` tail, the group non-empty and on one line. */
  predicate Framed(text: Bytes, digits: Bytes, group: Bytes, tail: Bytes) {
    && digits != [] && AllDigits(digits)
    && group != [] && NEWLINE !in group
    && text == [LETTER_S, COLON] + digits + [COLON, QUOTE] + group + [QUOTE, SEMICOLON] + tail
  }

  lemma FrameOpens(text: Bytes, digits: Bytes, body: Bytes)
    requires digits != [] && AllDigits(digits)
    requires text == [LETTER_S, COLON] + digits + [COLON, QUOTE] + body
    ensures [LETTER_S, COLON] <= text
    ensures LeadingDigits(text[2..]) == |digits|
    ensures [COLON, QUOTE] <= text[2 + |digits|..]
    ensures text[2 + |digits|..][2..] == body
  {
    var s := text[2..];
    assert s == digits + [COLON, QUOTE] + body;
    assert s[..|digits|] == digits;
    LeadingDigitsIs(s, |digits|);
    assert text[2 + |digits|..] == [COLON, QUOTE] + body;
  }

  lemma GroupIsOnLine(group: Bytes, tail: Bytes)
    requires group != [] && NEWLINE !in group
    ensures var body := group + [QUOTE, SEMICOLON] + tail;
            var line := FirstLine(body);
            line >= |group| + 2 && LastTerminator(body[..line], line) >= |group|
  {
    var body := group + [QUOTE, SEMICOLON] + tail;
    var line := FirstLine(body);
    assert forall k :: 0 <= k < |group| ==> body[k] == group[k] && group[k] in group;
    assert body[|group|] == QUOTE && body[|group| + 1] == SEMICOLON;
    assert line >= |group| + 2;
    assert Terminator(body[..line], |group|);
  }

  /** The match is the longest group any reading of the text allows, and fails only if there is none. */
  lemma MatchIsGreedy(text: Bytes, digits: Bytes, group: Bytes, tail: Bytes)
    requires Framed(text, digits, group, tail)
    ensures Match(text).Some? && |Match(text).value| >= |group|
  {
    var body := group + [QUOTE, SEMICOLON] + tail;
    assert text == [LETTER_S, COLON] + digits + [COLON, QUOTE] + body;
    FrameOpens(text, digits, body);
    GroupIsOnLine(group, tail);
  }

  lemma HeadOff(s: Bytes, head: Bytes)
    requires head <= s
    ensures s == head + s[|head|..]
  {
  }

  lemma Regroup(a: Bytes, b: Bytes, c: Bytes, d: Bytes)
    ensures a + (b + (c + d)) == a + b + c + d
  {
  }

  lemma HeaderSplits(text: Bytes, n: nat)
    requires 2 + n <= |text| && [LETTER_S, COLON] <= text && [COLON, QUOTE] <= text[2 + n..]
    ensures text == [LETTER_S, COLON] + text[2..][..n] + [COLON, QUOTE] + text[2 + n..][2..]
  {
    var rest := text[2 + n..];
    HeadOff(text, [LETTER_S, COLON]);
    HeadOff(text[2..], text[2..][..n]);
    assert text[2..][n..] == rest;
    HeadOff(rest, [COLON, QUOTE]);
    Regroup([LETTER_S, COLON], text[2..][..n], [COLON, QUOTE], rest[2..]);
  }

  lemma BodySplits(body: Bytes, i: nat)
    requires Terminator(body[..FirstLine(body)], i)
    ensures body == body[..i] + [QUOTE, SEMICOLON] + body[i + 2..]
    ensures NEWLINE !in body[..i]
  {
    var line := body[..FirstLine(body)];
    assert body[..i] == line[..i];
    assert body[i] == line[i] && body[i + 1] == line[i + 1];
  }

  lemma FrameCloses(text: Bytes, digits: Bytes, body: Bytes, group: Bytes, tail: Bytes)
    requires digits != [] && AllDigits(digits) && group != [] && NEWLINE !in group
    requires text == [LETTER_S, COLON] + digits + [COLON, QUOTE] + body
    requires body == group + [QUOTE, SEMICOLON] + tail
    ensures Framed(text, digits, group, tail)
  {
  }

  lemma MatchIsFramed(text: Bytes)
    requires Match(text).Some?
    ensures exists digits, tail :: Framed(text, digits, Match(text).value, tail)
  {
    var n := LeadingDigits(text[2..]);
    var body := text[2 + n..][2..];
    var i := LastTerminator(body[..FirstLine(body)], FirstLine(body));
    HeaderSplits(text, n);
    BodySplits(body, i);
    FrameCloses(text, text[2..][..n], body, body[..i], body[i + 2..]);
  }

  function Unserialise(text: Bytes): Bytes {
    var m := Match(text);
    if m.Some? then m.value else text
  }

  /** The pattern gives back exactly the non-empty one-line values, `";` inside them included:
      greediness picks the last terminator, the one that was appended. */
  lemma UnserialiseIff(length: nat, value: Bytes)
    ensures Unserialise(Serialise(length, value)) == value <==> value != [] && NEWLINE !in value
  {
    var text := Serialise(length, value);
    var m := Match(text);
    if value != [] && NEWLINE !in value {
      DecimalIsDigits(length);
      assert Framed(text, Decimal(length), value, []);
      MatchIsGreedy(text, Decimal(length), value, []);
      MatchEndsInText(text, Decimal(length), value);
    } else if m.Some? {
      MatchIsFramed(text);
    } else {
      assert |text| > |value|;
    }
  }

  lemma MatchEndsInText(text: Bytes, digits: Bytes, value: Bytes)
    requires Framed(text, digits, value, []) && Match(text).Some? && |Match(text).value| >= |value|
    ensures Match(text).value == value
  {
    var body := value + [QUOTE, SEMICOLON];
    assert text == [LETTER_S, COLON] + digits + [COLON, QUOTE] + body;
    FrameOpens(text, digits, body);
    assert |Match(text).value| <= |value|;
    assert Match(text).value == body[..|value|];
    assert body[..|value|] == value;
  }

  // ----- The envelope -----

  /** Bytes as text and back. */
  datatype Armour = Armour(encode: Bytes -> Bytes, decode: Bytes -> Option<Bytes>)

  function Base64Armour(): Armour {
    Armour(Encode, Decode)
  }

  ghost predicate Inverse(m: Armour) {
    forall d: Bytes {:trigger m.encode(d)} :: m.decode(m.encode(d)) == Some(d)
  }

  function Seal(h: Host, m: Armour, plain: Bytes, iv: Bytes): Bytes {
    var iv64 := m.encode(iv);
    var value64 := m.encode(EncryptBlocks(h, iv, Pad(plain)));
    m.encode(h.dumps(Envelope(iv64, value64, h.mac(iv64 + value64), [])))
  }

  /** None where any layer raises. The MAC is not looked at. */
  function Open(h: Host, m: Armour, text: Bytes): Option<string> {
    match m.decode(text)
    case None => None
    case Some(json) =>
      match h.loads(json)
      case None => None
      case Some(e) =>
        match (m.decode(e.iv), m.decode(e.value))
        case (Some(iv), Some(value)) =>
          (match DecryptBlocks(h, iv, value)
           case None => None
           case Some(padded) =>
             match Unpad(padded)
             case None => None
             case Some(plain) => h.decodeUtf8(Unserialise(plain)))
        case _ => None
  }

  function Encrypt(h: Host, text: string, iv: Bytes): Bytes {
    Seal(h, Base64Armour(), Serialise(|text|, h.utf8(text)), iv)
  }

  function Decrypt(h: Host, text: Bytes): Option<string> {
    Open(h, Base64Armour(), text)
  }

  lemma SealedOpens(h: Host, m: Armour, plain: Bytes, iv: Bytes)
    requires Lawful(h) && Inverse(m) && |iv| == BLOCK
    ensures Open(h, m, Seal(h, m, plain, iv)) == h.decodeUtf8(Unserialise(plain))
  {
    DecryptInvertsEncryptBlocks(h, iv, Pad(plain));
    UnpadInvertsPad(plain);
  }

  /** What is encrypted decrypts to itself exactly when it is not empty and has no line feed. */
  lemma RoundTripIff(h: Host, text: string, iv: Bytes)
    requires Lawful(h) && |iv| == BLOCK
    ensures Decrypt(h, Encrypt(h, text, iv)) == Some(text) <==> text != "" && '\n' !in text
  {
    Base64IsInverse();
    SealedOpens(h, Base64Armour(), Serialise(|text|, h.utf8(text)), iv);
    UnserialiseIff(|text|, h.utf8(text));
    assert h.decodeUtf8(h.utf8(text)) == Some(text);
  }

  lemma Base64IsInverse()
    ensures Inverse(Base64Armour())
  {
    forall d: Bytes ensures Decode(Encode(d)) == Some(d) {
      DecodeInvertsEncode(d);
    }
  }

  // ----- The panel's own reader -----

  function Number(digits: Bytes): int {
    if digits == [] then 0 else 10 * Number(digits[..|digits| - 1]) + (digits[|digits| - 1] as int - 48)
  }

  lemma {:induction false} NumberOfDecimal(n: nat)
    ensures Number(Decimal(n)) == n
  {
    if n < 10 {
      assert Number([]) == 0;
      assert Decimal(n)[..0] == [];
    } else {
      NumberOfDecimal(n / 10);
      assert Decimal(n)[..|Decimal(n)| - 1] == Decimal(n / 10);
    }
  }

  /** PHP's `unserialize` of a string: the length says how many bytes there are before the closing quote; what follows
      the semicolon is ignored. */
  function PhpString(text: Bytes): Option<Bytes> {
    if !([LETTER_S, COLON] <= text) then None
    else
      var n := LeadingDigits(text[2..]);
      var rest := text[2 + n..];
      if n == 0 || !([COLON, QUOTE] <= rest) then None
      else
        var body, length := rest[2..], Number(text[2..][..n]);
        if 0 <= length && length + 2 <= |body| && body[length] == QUOTE && body[length + 1] == SEMICOLON
        then Some(body[..length]) else None
  }

  /** The panel refuses an envelope whose MAC is not that of its two other parts. */
  function PanelDecrypt(h: Host, text: Bytes): Option<string> {
    match Decode(text)
    case None => None
    case Some(json) =>
      match h.loads(json)
      case None => None
      case Some(e) =>
        if e.mac != h.mac(e.iv + e.value) then None
        else match (Decode(e.iv), Decode(e.value))
          case (Some(iv), Some(value)) =>
            (match DecryptBlocks(h, iv, value)
             case None => None
             case Some(padded) =>
               match Unpad(padded)
               case None => None
               case Some(plain) =>
                 match PhpString(plain)
                 case None => None
                 case Some(bytes) => h.decodeUtf8(bytes))
          case _ => None
  }

  lemma PhpReadsIff(length: nat, value: Bytes)
    ensures PhpString(Serialise(length, value)) == Some(value) <==> length == |value|
    ensures PhpString(Serialise(length, value)).Some? ==> |PhpString(Serialise(length, value)).value| == length
  {
    var text, body := Serialise(length, value), value + [QUOTE, SEMICOLON];
    DecimalIsDigits(length);
    assert text == [LETTER_S, COLON] + Decimal(length) + [COLON, QUOTE] + body;
    FrameOpens(text, Decimal(length), body);
    var n := |Decimal(length)|;
    assert text[2..][..n] == Decimal(length);
    NumberOfDecimal(length);
    if length == |value| {
      assert body[..length] == value;
    }
  }

  lemma SealedReachesPanel(h: Host, plain: Bytes, iv: Bytes)
    requires Lawful(h) && |iv| == BLOCK
    ensures PanelDecrypt(h, Seal(h, Base64Armour(), plain, iv))
         == match PhpString(plain) case None => None case Some(bytes) => h.decodeUtf8(bytes)
  {
    var iv64, value64 := Encode(iv), Encode(EncryptBlocks(h, iv, Pad(plain)));
    DecodeInvertsEncode(iv);
    DecodeInvertsEncode(EncryptBlocks(h, iv, Pad(plain)));
    DecodeInvertsEncode(h.dumps(Envelope(iv64, value64, h.mac(iv64 + value64), [])));
    DecryptInvertsEncryptBlocks(h, iv, Pad(plain));
    UnpadInvertsPad(plain);
  }

  /** The panel itself reads back what the service encrypts exactly when the text has as many bytes as characters: the
      length in the frame counts characters. */
  lemma PanelReadsBackIff(h: Host, text: string, iv: Bytes)
    requires Lawful(h) && |iv| == BLOCK
    ensures PanelDecrypt(h, Encrypt(h, text, iv)) == Some(text) <==> |h.utf8(text)| == |text|
  {
    SealedReachesPanel(h, Serialise(|text|, h.utf8(text)), iv);
    PhpReadsIff(|text|, h.utf8(text));
    assert h.decodeUtf8(h.utf8(text)) == Some(text);
    var read := PhpString(Serialise(|text|, h.utf8(text)));
    if read.Some? && h.decodeUtf8(read.value) == Some(text) {
      assert h.utf8(h.decodeUtf8(read.value).value) == read.value;
    }
  }
}
