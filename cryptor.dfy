/** The message encryption of the WeChat official-account server: PKCS #7
    padding to 32-byte blocks, the plaintext frame `16 random bytes ‖
    4-byte network-order length ‖ message ‖ appId`, AES-CBC and Base64
    around it, the SHA-1 signature over the sorted token, timestamp, nonce
    and ciphertext, and the checks made on an incoming encrypted message.
    The cipher, Base64 and SHA-1 are parameters: the model relies only on
    decryption and decoding undoing encryption and encoding. */
module Cryptor {
  import opened Wrappers
  import opened PyValues
  import opened Collections
  import Text
  import Utf8
  import Sorting
  import PyRandom
  import Xml

  // ---------------------------------------------------------------------
  // PKCS7Encoder

  const BlockSize: nat := 32

  /** The number of pad bytes for a text of `n` bytes; the source also
      maps a remainder of 0 to a whole block, which the subtraction
      already gives. */
  function PadAmount(n: nat): (a: nat)
    ensures 1 <= a <= BlockSize && (n + a) % BlockSize == 0
  {
    var a := BlockSize - n % BlockSize;
    if a == 0 then BlockSize else a
  }

  /** `PKCS7Encoder.encode`: the text followed by `a` bytes of value `a`,
      `chr(a).encode('utf-8')` being the one byte `a` for `a <= 32`. The
      result is a whole number of blocks longer than the text by 1 to 32
      bytes, each equal to that count. */
  function Pkcs7Encode(text: seq<byte>): (r: seq<byte>)
    ensures |r| % BlockSize == 0
    ensures |text| < |r| <= |text| + BlockSize
    ensures r[..|text|] == text
    ensures forall k :: |text| <= k < |r| ==> r[k] as int == |r| - |text|
  {
    var a := PadAmount(|text|);
    text + seq(a, _ => a as byte)
  }

  /** `PKCS7Encoder.decode`: `decrypted[:-n]` for the value `n` of the
      last byte, checked against nothing. `ord` of the empty slice of an
      empty input raises `TypeError`; `n == 0` gives `[:-0]`, the empty
      prefix, and an `n` not below the length gives the empty prefix too. */
  function Pkcs7Decode(decrypted: seq<byte>): (r: Result<seq<byte>>)
    ensures r.Err? <==> decrypted == []
    ensures r.Err? ==> r.error == TypeError
    ensures r.Ok? ==> |r.value| <= |decrypted| && r.value == decrypted[..|r.value|]
    ensures r.Ok? ==> var n := decrypted[|decrypted| - 1] as int;
      |r.value| == if 0 < n < |decrypted| then |decrypted| - n else 0
  {
    if decrypted == [] then Err(TypeError)
    else Ok(TakePy(decrypted, -(decrypted[|decrypted| - 1] as int)))
  }

  /** Removing the padding gives back the text, for every byte string. */
  lemma Pkcs7RoundTrip(text: seq<byte>)
    ensures Pkcs7Decode(Pkcs7Encode(text)) == Ok(text)
  {
    var r := Pkcs7Encode(text);
    assert r[|r| - 1] as int == |r| - |text|;
  }

  // ---------------------------------------------------------------------
  // The length field

  const Two32: nat := 0x1_0000_0000

  /** `struct.pack("I", socket.htonl(n))`: the four bytes of `n`, most
      significant first, whatever the machine's byte order. */
  function Be32(n: nat): (r: seq<byte>)
    requires n < Two32
    ensures |r| == 4
  {
    var n1 := n / 256;
    var n2 := n1 / 256;
    [(n2 / 256) as byte, (n2 % 256) as byte, (n1 % 256) as byte, (n % 256) as byte]
  }

  /** `socket.ntohl(struct.unpack("I", b)[0])`. */
  function FromBe32(b: seq<byte>): (n: nat)
    requires |b| == 4
    ensures n < Two32
  {
    ((b[0] as int * 256 + b[1] as int) * 256 + b[2] as int) * 256 + b[3] as int
  }

  /** Reading the length field back gives the length written. */
  lemma Be32RoundTrip(n: nat)
    requires n < Two32
    ensures FromBe32(Be32(n)) == n
  {
    var n1 := n / 256;
    var n2 := n1 / 256;
    assert n == n1 * 256 + n % 256;
    assert n1 == n2 * 256 + n1 % 256;
    assert n2 == (n2 / 256) * 256 + n2 % 256;
  }

  // ---------------------------------------------------------------------
  // The codecs

  /** An AES-CBC cipher object as built from the key, with the first 16
      key bytes as IV: `decrypt` raises (`ValueError`) on input that is not
      whole 16-byte blocks. */
  datatype Cipher = Cipher(encrypt: seq<byte> -> seq<byte>, decrypt: seq<byte> -> Result<seq<byte>>)

  /** Decryption undoes encryption on whole blocks. */
  ghost predicate CipherInverse(c: Cipher) {
    forall x: seq<byte> :: |x| % 16 == 0 ==> c.decrypt(c.encrypt(x)) == Ok(x)
  }

  /** `base64.b64encode`, whose ASCII output is carried as the text it
      spells, and `base64.b64decode`, whose failures are `binascii.Error`,
      a `ValueError`. */
  datatype Base64 = Base64(encode: seq<byte> -> string, decode: string -> Result<seq<byte>>)

  ghost predicate Base64Inverse(b64: Base64) {
    forall x: seq<byte> :: b64.decode(b64.encode(x)) == Ok(x)
  }

  // ---------------------------------------------------------------------
  // Prpcrypt

  /** What `Prpcrypt.__init__` sets once: the UTF-8 appId and the cipher
      built from the key. */
  datatype Prpcrypt = Prpcrypt(appId: seq<byte>, cipher: Cipher, b64: Base64)

  /** `Prpcrypt(encodingAESKey, appId)`: the key is the Base64 decoding of
      `encodingAESKey + "="` and must be 32 bytes long (`AssertionError`
      otherwise); `makeCipher` stands for `AES.new(key, MODE_CBC, key[:16])`. */
  function NewPrpcrypt(encodingAESKey: string, appId: string, b64: Base64, makeCipher: seq<byte> -> Cipher): (r: Result<Prpcrypt>)
    ensures r.Ok? <==> b64.decode(encodingAESKey + "=").Ok? && |b64.decode(encodingAESKey + "=").value| == 32
    ensures r.Ok? ==> r.value.appId == Utf8.Encode(appId) && r.value.cipher == makeCipher(b64.decode(encodingAESKey + "=").value)
    ensures b64.decode(encodingAESKey + "=").Ok? && !r.Ok? ==> r == Err(AssertionError)
  {
    var key :- b64.decode(encodingAESKey + "=");
    if |key| != 32 then Err(AssertionError)
    else Ok(Prpcrypt(Utf8.Encode(appId), makeCipher(key), b64))
  }

  /** `string.ascii_letters + string.digits`. */
  const Alphanumerics: string := Text.LetterChars + Text.DigitChars

  /** `random16bytes`: 16 distinct letters or digits drawn by
      `random.sample`, as UTF-8: one byte each. */
  function Random16(draws: nat -> nat): (r: seq<byte>)
    ensures |r| == 16
  {
    PyRandom.SampleShape(Alphanumerics, 16, draws);
    var sample := PyRandom.SampleSpec(Alphanumerics, 16, draws).value;
    SampleAscii(sample);
    Utf8.EncodeAscii(sample);
    Utf8.Encode(sample)
  }

  lemma AlphanumericAscii(x: char)
    requires x in Alphanumerics
    ensures x as int < 0x80
  {
    var j :| 0 <= j < |Alphanumerics| && Alphanumerics[j] == x;
    if j < 52 {
      assert Text.LetterChars[j] == x;
    } else {
      assert Text.DigitChars[j - 52] == x;
    }
  }

  lemma SampleAscii(sample: string)
    requires forall x :: x in sample ==> x in Alphanumerics
    ensures Utf8.IsAscii(sample)
  {
    forall k | 0 <= k < |sample| ensures sample[k] as int < 0x80 {
      AlphanumericAscii(sample[k]);
    }
  }

  /** The message handed to `encrypt`: a `str`, UTF-8 encoded first, or
      `bytes` taken as they are. */
  datatype Payload = Str(s: string) | Bytes(b: seq<byte>)

  function PayloadBytes(p: Payload): seq<byte> {
    match p
    case Str(s) => Utf8.Encode(s)
    case Bytes(b) => b
  }

  /** The plaintext frame: 16 random bytes, the message length in network
      order, the message, the appId. */
  function Frame(random16: seq<byte>, msg: seq<byte>, appId: seq<byte>): (r: seq<byte>)
    requires |msg| < Two32
    ensures |r| == |random16| + 4 + |msg| + |appId|
  {
    random16 + (Be32(|msg|) + msg + appId)
  }

  /** The Base64 text of the encrypted, padded frame of `msg`. */
  function Ciphertext(pc: Prpcrypt, msg: seq<byte>, random16: seq<byte>): string
    requires |msg| < Two32
  {
    pc.b64.encode(pc.cipher.encrypt(Pkcs7Encode(Frame(random16, msg, pc.appId))))
  }

  /** `Prpcrypt.encrypt`: the ciphertext text, returned as its ASCII
      bytes. `htonl` raises `OverflowError` for a message of 2^32 bytes or
      more. */
  function Encrypt(pc: Prpcrypt, text: Payload, random16: seq<byte>): (r: Result<seq<byte>>)
    ensures r.Err? <==> |PayloadBytes(text)| >= Two32
    ensures r.Err? ==> r.error == OverflowError
    ensures r.Ok? ==> r.value == Utf8.Encode(Ciphertext(pc, PayloadBytes(text), random16))
  {
    var msg := PayloadBytes(text);
    if |msg| >= Two32 then Err(OverflowError)
    else Ok(Utf8.Encode(Ciphertext(pc, msg, random16)))
  }

  /** The unpadded plaintext after the 16 random bytes: the length field,
      then a message of that length, then exactly the appId
      (`AssertionError` otherwise); fewer than 4 bytes make `struct.unpack`
      raise `struct.error`. The message is returned UTF-8 decoded. */
  function Unframe(content: seq<byte>, appId: seq<byte>): (r: Result<string>)
    ensures |content| < 4 ==> r == Err(StructError)
    ensures |content| >= 4 && Text.From(content, FromBe32(content[..4]) + 4) != appId ==> r == Err(AssertionError)
    ensures r.Ok? ==> |content| >= 4 && Text.From(content, FromBe32(content[..4]) + 4) == appId
    ensures |content| >= 4 && Text.From(content, FromBe32(content[..4]) + 4) == appId ==>
      r == Utf8.Decode(Text.Slice(content, 4, FromBe32(content[..4]) + 4))
  {
    if |content| < 4 then Err(StructError)
    else
      var xmlLen := FromBe32(content[..4]);
      if Text.From(content, xmlLen + 4) != appId then Err(AssertionError)
      else Utf8.Decode(Text.Slice(content, 4, xmlLen + 4))
  }

  /** `Prpcrypt.decrypt`: Base64-decode, decrypt, strip the padding, drop
      the 16 random bytes and read the frame. */
  function Decrypt(pc: Prpcrypt, text: string): (r: Result<string>)
    ensures r.Ok? ==> && pc.b64.decode(text).Ok? && pc.cipher.decrypt(pc.b64.decode(text).value).Ok?
                      && Pkcs7Decode(pc.cipher.decrypt(pc.b64.decode(text).value).value).Ok?
    ensures r.Ok? ==> var content := Text.From(Pkcs7Decode(pc.cipher.decrypt(pc.b64.decode(text).value).value).value, 16);
      |content| >= 4 && Text.From(content, FromBe32(content[..4]) + 4) == pc.appId
  {
    var raw :- pc.b64.decode(text);
    var plain :- pc.cipher.decrypt(raw);
    var unpadded :- Pkcs7Decode(plain);
    Unframe(Text.From(unpadded, 16), pc.appId)
  }

  /** Reading a frame gives back the message it was built from, decoded. */
  lemma UnframeFrame(random16: seq<byte>, msg: seq<byte>, appId: seq<byte>)
    requires |random16| == 16 && |msg| < Two32
    ensures Unframe(Text.From(Frame(random16, msg, appId), 16), appId) == Utf8.Decode(msg)
  {
    var content := FrameContent(random16, msg, appId);
    var n := FromBe32(content[..4]);
    assert Text.Slice(content, 4, n + 4) == msg;
  }

  /** After the 16 random bytes, a frame holds the length field, whose
      value is the length of the message, the message and the appId. */
  lemma FrameContent(random16: seq<byte>, msg: seq<byte>, appId: seq<byte>) returns (content: seq<byte>)
    requires |random16| == 16 && |msg| < Two32
    ensures content == Text.From(Frame(random16, msg, appId), 16)
    ensures content == Be32(|msg|) + msg + appId
    ensures |content| >= 4 && FromBe32(content[..4]) == |msg|
    ensures Text.From(content, |msg| + 4) == appId
  {
    var len := Be32(|msg|);
    content := len + msg + appId;
    assert Frame(random16, msg, appId) == random16 + content;
    assert Text.From(random16 + content, 16) == content;
    assert content[..4] == len;
    Be32RoundTrip(|msg|);
    assert content[|msg| + 4..] == appId;
  }

  /** With decryption and decoding undoing encryption and encoding,
      decrypting what `encrypt` produced gives back the message: a `str`
      as it was, `bytes` as their UTF-8 decoding. */
  lemma EncryptDecrypt(pc: Prpcrypt, text: Payload, random16: seq<byte>)
    requires CipherInverse(pc.cipher) && Base64Inverse(pc.b64)
    requires |random16| == 16 && |PayloadBytes(text)| < Two32
    ensures Encrypt(pc, text, random16).Ok?
    ensures Utf8.Decode(Encrypt(pc, text, random16).value).Ok?
    ensures Decrypt(pc, Utf8.Decode(Encrypt(pc, text, random16).value).value) ==
      match text case Str(s) => Ok(s) case Bytes(b) => Utf8.Decode(b)
  {
    var msg := PayloadBytes(text);
    var b64text := Ciphertext(pc, msg, random16);
    Utf8.DecodeEncode(b64text);
    OpenSealed(pc, Frame(random16, msg, pc.appId));
    UnframeFrame(random16, msg, pc.appId);
    if text.Str? {
      Utf8.DecodeEncode(text.s);
    }
  }

  /** Decrypting the sealed frame reads the frame again. */
  lemma OpenSealed(pc: Prpcrypt, frame: seq<byte>)
    requires CipherInverse(pc.cipher) && Base64Inverse(pc.b64)
    ensures Decrypt(pc, pc.b64.encode(pc.cipher.encrypt(Pkcs7Encode(frame)))) == Unframe(Text.From(frame, 16), pc.appId)
  {
    var padded := Pkcs7Encode(frame);
    var sealed := pc.cipher.encrypt(padded);
    assert pc.b64.decode(pc.b64.encode(sealed)) == Ok(sealed);
    assert pc.cipher.decrypt(sealed) == Ok(padded);
    Pkcs7RoundTrip(frame);
  }

  /** Whatever the ciphertext, a message is returned only when the bytes
      after the declared length are exactly the appId; a decrypted frame
      whose tail is another appId is refused with `AssertionError`. */
  lemma DecryptOtherAppId(pc: Prpcrypt, random16: seq<byte>, msg: seq<byte>, other: seq<byte>)
    requires CipherInverse(pc.cipher) && Base64Inverse(pc.b64)
    requires |random16| == 16 && |msg| < Two32 && other != pc.appId
    ensures Decrypt(pc, pc.b64.encode(pc.cipher.encrypt(Pkcs7Encode(Frame(random16, msg, other))))) == Err(AssertionError)
  {
    OpenSealed(pc, Frame(random16, msg, other));
    var content := FrameContent(random16, msg, other);
  }

  // ---------------------------------------------------------------------
  // Cryptor.get_signature

  function StrKey(s: string): Sorting.SortKey {
    Sorting.Text(s)
  }

  /** SHA-1 hex digest of the concatenation of the sorted parts, UTF-8
      encoded; `sha1` stands for `hashlib.sha1(...).hexdigest()`. */
  function SignatureOf(parts: seq<string>, sha1: seq<byte> -> string): string {
    sha1(Utf8.Encode(Text.Join("", Sorting.SortBy(parts, StrKey, false))))
  }

  /** The signature sees the parts only through their multiset: any
      reordering of them signs the same. */
  lemma SignatureOfPermutation(a: seq<string>, b: seq<string>, sha1: seq<byte> -> string)
    requires multiset(a) == multiset(b)
    ensures SignatureOf(a, sha1) == SignatureOf(b, sha1)
  {
    Sorting.SortBySorted(a, StrKey, false);
    Sorting.SortBySorted(b, StrKey, false);
    Sorting.SortedUnique(Sorting.SortBy(a, StrKey, false), Sorting.SortBy(b, StrKey, false), StrKey, false);
  }

  /** `get_signature(timestamp, nonce, encrypt)`: `bytes` ciphertext is
      UTF-8 decoded first (`ValueError` when it is not UTF-8; anything
      neither `str` nor `bytes` has no `decode`, `AttributeError`); a
      timestamp or nonce that is not a `str` cannot be compared with the
      token by `sorted`, `TypeError`. */
  function GetSignature(token: string, timestamp: PyVal, nonce: PyVal, encrypt: PyVal, sha1: seq<byte> -> string): (r: Result<string>)
    ensures r.Ok? <==> (encrypt.PStr? || (encrypt.PBytes? && Utf8.Decode(encrypt.bytes).Ok?)) && timestamp.PStr? && nonce.PStr?
    ensures r.Ok? ==> r.value == SignatureOf([token, timestamp.s, nonce.s, if encrypt.PStr? then encrypt.s else Utf8.Decode(encrypt.bytes).value], sha1)
    ensures !encrypt.PStr? && !encrypt.PBytes? ==> r == Err(AttributeError)
    ensures (encrypt.PStr? || (encrypt.PBytes? && Utf8.Decode(encrypt.bytes).Ok?)) && !(timestamp.PStr? && nonce.PStr?) ==> r == Err(TypeError)
  {
    var enc :- match encrypt
      case PStr(s) => Ok(s)
      case PBytes(b) => Utf8.Decode(b)
      case _ => Err(AttributeError);
    if !timestamp.PStr? || !nonce.PStr? then Err(TypeError)
    else Ok(SignatureOf([token, timestamp.s, nonce.s, enc], sha1))
  }

  /** The signature depends only on the multiset {token, timestamp, nonce,
      encrypt}: exchanging the roles of the four strings signs the same. */
  lemma GetSignatureSymmetric(token: string, t1: string, n1: string, e1: string, t2: string, n2: string, e2: string,
                              sha1: seq<byte> -> string)
    requires multiset([token, t1, n1, e1]) == multiset([token, t2, n2, e2])
    ensures GetSignature(token, PStr(t1), PStr(n1), PStr(e1), sha1) == GetSignature(token, PStr(t2), PStr(n2), PStr(e2), sha1)
  {
    SignatureOfPermutation([token, t1, n1, e1], [token, t2, n2, e2], sha1);
  }

  /** Signing the ciphertext as `bytes` or as the text they spell is the
      same. */
  lemma GetSignatureBytes(token: string, timestamp: string, nonce: string, encrypt: string, sha1: seq<byte> -> string)
    ensures GetSignature(token, PStr(timestamp), PStr(nonce), PBytes(Utf8.Encode(encrypt)), sha1)
         == GetSignature(token, PStr(timestamp), PStr(nonce), PStr(encrypt), sha1)
  {
    Utf8.DecodeEncode(encrypt);
  }

  // ---------------------------------------------------------------------
  // Cryptor

  /** The `Cryptor` object: the token read from the secret store and the
      `Prpcrypt` built from the stored key and appId. */
  datatype CryptorState = CryptorState(token: string, pc: Prpcrypt)

  /** `nonce or "".join(random.sample(string.digits, 9))`: an empty or
      missing nonce is replaced by nine distinct digits. */
  function NonceOrDraw(nonce: Option<string>, draws: nat -> nat): (r: string)
    ensures nonce.Some? && nonce.value != [] ==> r == nonce.value
    ensures nonce.None? || nonce.value == [] ==> |r| == 9 && Distinct(r) && forall k :: 0 <= k < |r| ==> Text.IsDigit(r[k])
  {
    if nonce.Some? && nonce.value != [] then nonce.value
    else
      PyRandom.SampleShape(Text.DigitChars, 9, draws);
      DigitsDistinct();
      var r := PyRandom.SampleSpec(Text.DigitChars, 9, draws).value;
      DrawnDigits(r);
      r
  }

  lemma DrawnDigits(r: string)
    requires forall x :: x in r ==> x in Text.DigitChars
    ensures forall k :: 0 <= k < |r| ==> Text.IsDigit(r[k])
  {
    forall k | 0 <= k < |r| ensures Text.IsDigit(r[k]) {
      assert r[k] in r;
      var j :| 0 <= j < 10 && Text.DigitChars[j] == r[k];
    }
  }

  lemma DigitsDistinct()
    ensures Distinct(Text.DigitChars)
  {
    forall i, j | 0 <= i < j < 10 ensures Text.DigitChars[i] != Text.DigitChars[j] {
      assert Text.DigitChars[i] as int == '0' as int + i;
    }
  }

  /** `XMLParser.generate`: the `xml` element with the ciphertext, the
      signature and the nonce as CDATA and the timestamp as plain text. */
  function Generate(encrypt: string, signature: string, timestamp: string, nonce: string): (r: Xml.Element)
    ensures r.tag == "xml" && |r.children| == 4
    ensures Xml.FindText(r, "Encrypt") == Ok(Some(encrypt))
    ensures Xml.FindText(r, "MsgSignature") == Ok(Some(signature))
    ensures Xml.FindText(r, "TimeStamp") == Ok(Some(timestamp))
    ensures Xml.FindText(r, "Nonce") == Ok(Some(nonce))
  {
    var r := Xml.Element("xml", None, [
      Xml.Element("Encrypt", Some(Xml.XmlText(encrypt, true)), []),
      Xml.Element("MsgSignature", Some(Xml.XmlText(signature, true)), []),
      Xml.Element("TimeStamp", Some(Xml.XmlText(timestamp, false)), []),
      Xml.Element("Nonce", Some(Xml.XmlText(nonce, true)), [])]);
    Xml.FindTextAt(r, "Encrypt", 0);
    Xml.FindTextAt(r, "MsgSignature", 1);
    Xml.FindTextAt(r, "TimeStamp", 2);
    Xml.FindTextAt(r, "Nonce", 3);
    r
  }

  /** `timestamp or str(int(time.time()))`, the clock read as `nowSec`. */
  function TimestampOrNow(timestamp: Option<string>, nowSec: int): (r: string)
    ensures timestamp.Some? && timestamp.value != [] ==> r == timestamp.value
    ensures timestamp.None? || timestamp.value == [] ==> r == Text.IntToStr(nowSec)
  {
    if timestamp.Some? && timestamp.value != [] then timestamp.value else Text.IntToStr(nowSec)
  }

  /** `Cryptor.encrypt(replyMsgXml, nonce, timestamp)`: encrypt the reply,
      default the nonce and the timestamp, sign, and wrap. */
  function CryptorEncrypt(c: CryptorState, replyMsgXml: Payload, nonce: Option<string>, timestamp: Option<string>,
                          random16: seq<byte>, draws: nat -> nat, nowSec: int, sha1: seq<byte> -> string): (r: Result<Xml.Element>)
    ensures |PayloadBytes(replyMsgXml)| >= Two32 ==> r == Err(OverflowError)
  {
    var encrypt :- Encrypt(c.pc, replyMsgXml, random16);
    var n := NonceOrDraw(nonce, draws);
    var t := TimestampOrNow(timestamp, nowSec);
    var signature :- GetSignature(c.token, PStr(t), PStr(n), PBytes(encrypt), sha1);
    var text :- Utf8.Decode(encrypt);
    Ok(Generate(text, signature, t, n))
  }

  /** What `Cryptor.encrypt` wraps: the ciphertext of the reply, the
      signature of token, timestamp, nonce and ciphertext, the given
      timestamp or the clock's, and the given nonce or a drawn one. */
  lemma CryptorEncryptShape(c: CryptorState, msg: Payload, nonce: Option<string>, timestamp: Option<string>,
                            random16: seq<byte>, draws: nat -> nat, nowSec: int, sha1: seq<byte> -> string)
    requires |PayloadBytes(msg)| < Two32
    ensures var encrypt := Ciphertext(c.pc, PayloadBytes(msg), random16);
      var t := TimestampOrNow(timestamp, nowSec);
      var n := NonceOrDraw(nonce, draws);
      CryptorEncrypt(c, msg, nonce, timestamp, random16, draws, nowSec, sha1)
        == Ok(Generate(encrypt, SignatureOf([c.token, t, n, encrypt], sha1), t, n))
  {
    var encrypt := Ciphertext(c.pc, PayloadBytes(msg), random16);
    Utf8.DecodeEncode(encrypt);
    GetSignatureBytes(c.token, TimestampOrNow(timestamp, nowSec), NonceOrDraw(nonce, draws), encrypt, sha1);
  }

  /** `Cryptor.decrypt(postArgs, postData)` on the parsed `postData`: the
      tree must hold `ToUserName` and `Encrypt` (`AttributeError`
      otherwise); `encrypt_type` must be present (`None.upper()` raises
      `AttributeError`) and read "AES" upper-cased, and `msg_signature`
      must equal the signature of token, timestamp, nonce and ciphertext
      (`AssertionError` otherwise); then the ciphertext is decrypted. */
  function CryptorDecrypt(c: CryptorState, postArgs: map<string, string>, tree: Xml.Element, sha1: seq<byte> -> string): (r: Result<string>)
    ensures Xml.FindText(tree, "ToUserName").Err? || Xml.FindText(tree, "Encrypt").Err? ==> r == Err(AttributeError)
    ensures Xml.FindText(tree, "ToUserName").Ok? && Xml.FindText(tree, "Encrypt").Ok? ==>
      r == CheckedDecrypt(c, postArgs, Xml.FindText(tree, "Encrypt").value, sha1)
  {
    var _ :- Xml.FindText(tree, "ToUserName");
    var encryptText :- Xml.FindText(tree, "Encrypt");
    CheckedDecrypt(c, postArgs, encryptText, sha1)
  }

  /** The checks of `Cryptor.decrypt` on the extracted ciphertext text
      (`None` for an empty `Encrypt` element, which has no `decode`). */
  function CheckedDecrypt(c: CryptorState, postArgs: map<string, string>, encryptText: Option<string>, sha1: seq<byte> -> string): (r: Result<string>)
    ensures "encrypt_type" !in postArgs ==> r == Err(AttributeError)
    ensures "encrypt_type" in postArgs && Text.Upper(postArgs["encrypt_type"]) != "AES" ==> r == Err(AssertionError)
    ensures r.Ok? ==>
      && "encrypt_type" in postArgs && Text.Upper(postArgs["encrypt_type"]) == "AES"
      && "timestamp" in postArgs && "nonce" in postArgs && encryptText.Some?
      && Arg(postArgs, "msg_signature") == Some(SignatureOf([c.token, postArgs["timestamp"], postArgs["nonce"], encryptText.value], sha1))
      && r == Decrypt(c.pc, encryptText.value)
  {
    var encryptType := Arg(postArgs, "encrypt_type");
    if encryptType.None? then Err(AttributeError)
    else if Text.Upper(encryptType.value) != "AES" then Err(AssertionError)
    else
      var encrypt := if encryptText.Some? then PStr(encryptText.value) else PNone;
      var signature :- GetSignature(c.token, ArgVal(postArgs, "timestamp"), ArgVal(postArgs, "nonce"), encrypt, sha1);
      if Arg(postArgs, "msg_signature") != Some(signature) then Err(AssertionError)
      else Decrypt(c.pc, encryptText.value)
  }

  /** `postArgs.get(name)`. */
  function Arg(postArgs: map<string, string>, name: string): (r: Option<string>)
    ensures r.Some? <==> name in postArgs
    ensures r.Some? ==> r.value == postArgs[name]
  {
    if name in postArgs then Some(postArgs[name]) else None
  }

  function ArgVal(postArgs: map<string, string>, name: string): PyVal {
    if name in postArgs then PStr(postArgs[name]) else PNone
  }

  /** The strings "AES" upper-cases to (upper-casing of ASCII letters). */
  predicate IsAes(s: string) {
    |s| == 3 && s[0] in "aA" && s[1] in "eE" && s[2] in "sS"
  }

  lemma UpperAes(s: string)
    ensures Text.Upper(s) == "AES" <==> IsAes(s)
  {
    if IsAes(s) {
      assert Text.Upper(s) == "AES";
    }
  }

  /** An incoming message is decrypted only when `encrypt_type` is "AES"
      in any case, `msg_signature` is the signature of the token, the
      timestamp, the nonce and the ciphertext, and `Prpcrypt.decrypt`
      accepts the ciphertext; a wrong encryption type or signature is
      refused with `AssertionError`. */
  lemma CryptorDecryptChecks(c: CryptorState, postArgs: map<string, string>, tree: Xml.Element, sha1: seq<byte> -> string)
    ensures CryptorDecrypt(c, postArgs, tree, sha1).Ok? ==>
      && "encrypt_type" in postArgs && IsAes(postArgs["encrypt_type"])
      && "timestamp" in postArgs && "nonce" in postArgs
      && Xml.FindText(tree, "Encrypt").Ok? && Xml.FindText(tree, "Encrypt").value.Some?
      && Xml.FindText(tree, "ToUserName").Ok?
      && "msg_signature" in postArgs
      && postArgs["msg_signature"] == SignatureOf([c.token, postArgs["timestamp"], postArgs["nonce"], Xml.FindText(tree, "Encrypt").value.value], sha1)
      && CryptorDecrypt(c, postArgs, tree, sha1) == Decrypt(c.pc, Xml.FindText(tree, "Encrypt").value.value)
    ensures (&& Xml.FindText(tree, "Encrypt").Ok? && Xml.FindText(tree, "ToUserName").Ok?
             && "encrypt_type" in postArgs && !IsAes(postArgs["encrypt_type"])) ==> CryptorDecrypt(c, postArgs, tree, sha1) == Err(AssertionError)
  {
    if "encrypt_type" in postArgs {
      UpperAes(postArgs["encrypt_type"]);
    }
  }

  /** The parsed incoming message that carries `encrypt` for `toUser`. */
  function Incoming(toUser: string, encrypt: string): (tree: Xml.Element)
    ensures Xml.FindText(tree, "ToUserName") == Ok(Some(toUser))
    ensures Xml.FindText(tree, "Encrypt") == Ok(Some(encrypt))
  {
    var tree := Xml.Element("xml", None, [
      Xml.Element("ToUserName", Some(Xml.XmlText(toUser, true)), []),
      Xml.Element("Encrypt", Some(Xml.XmlText(encrypt, true)), [])]);
    Xml.FindTextAt(tree, "ToUserName", 0);
    Xml.FindTextAt(tree, "Encrypt", 1);
    tree
  }

  /** An incoming message whose `Encrypt` element holds what `encrypt`
      produced for a text, with the right encryption type and signature,
      decrypts to that text. */
  lemma CryptorRoundTrip(c: CryptorState, s: string, random16: seq<byte>, toUser: string, args: map<string, string>,
                         sha1: seq<byte> -> string)
    requires CipherInverse(c.pc.cipher) && Base64Inverse(c.pc.b64)
    requires |random16| == 16 && |Utf8.Encode(s)| < Two32
    requires "encrypt_type" in args && IsAes(args["encrypt_type"])
    requires "timestamp" in args && "nonce" in args
    requires Arg(args, "msg_signature") ==
      Some(SignatureOf([c.token, args["timestamp"], args["nonce"], Ciphertext(c.pc, Utf8.Encode(s), random16)], sha1))
    ensures CryptorDecrypt(c, args, Incoming(toUser, Ciphertext(c.pc, Utf8.Encode(s), random16)), sha1) == Ok(s)
  {
    var encrypt := Ciphertext(c.pc, Utf8.Encode(s), random16);
    CryptorDecryptAccepts(c, args, Incoming(toUser, encrypt), encrypt, sha1);
    DecryptCiphertext(c.pc, s, random16);
  }

  /** The checks pass on an incoming message with both elements, an "AES"
      encryption type and the right signature; what remains is
      `Prpcrypt.decrypt`. */
  lemma CryptorDecryptAccepts(c: CryptorState, args: map<string, string>, tree: Xml.Element, encrypt: string,
                              sha1: seq<byte> -> string)
    requires Xml.FindText(tree, "Encrypt") == Ok(Some(encrypt)) && Xml.FindText(tree, "ToUserName").Ok?
    requires "encrypt_type" in args && IsAes(args["encrypt_type"])
    requires "timestamp" in args && "nonce" in args
    requires Arg(args, "msg_signature") == Some(SignatureOf([c.token, args["timestamp"], args["nonce"], encrypt], sha1))
    ensures CryptorDecrypt(c, args, tree, sha1) == Decrypt(c.pc, encrypt)
  {
    CheckedDecryptAccepts(c, args, encrypt, sha1);
  }

  lemma CheckedDecryptAccepts(c: CryptorState, args: map<string, string>, encrypt: string, sha1: seq<byte> -> string)
    requires "encrypt_type" in args && IsAes(args["encrypt_type"])
    requires "timestamp" in args && "nonce" in args
    requires Arg(args, "msg_signature") == Some(SignatureOf([c.token, args["timestamp"], args["nonce"], encrypt], sha1))
    ensures CheckedDecrypt(c, args, Some(encrypt), sha1) == Decrypt(c.pc, encrypt)
  {
    UpperAes(args["encrypt_type"]);
    SignArgs(c, args, encrypt, sha1);
  }

  lemma SignArgs(c: CryptorState, args: map<string, string>, encrypt: string, sha1: seq<byte> -> string)
    requires "timestamp" in args && "nonce" in args
    ensures GetSignature(c.token, ArgVal(args, "timestamp"), ArgVal(args, "nonce"), PStr(encrypt), sha1)
         == Ok(SignatureOf([c.token, args["timestamp"], args["nonce"], encrypt], sha1))
  {
  }

  /** The ciphertext of a text decrypts to the text. */
  lemma DecryptCiphertext(pc: Prpcrypt, s: string, random16: seq<byte>)
    requires CipherInverse(pc.cipher) && Base64Inverse(pc.b64)
    requires |random16| == 16 && |Utf8.Encode(s)| < Two32
    ensures Decrypt(pc, Ciphertext(pc, Utf8.Encode(s), random16)) == Ok(s)
  {
    EncryptDecrypt(pc, Str(s), random16);
    Utf8.DecodeEncode(Ciphertext(pc, Utf8.Encode(s), random16));
  }
}
