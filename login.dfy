/** POST /login (index.js:55-58): after the email and password check, the reply
    carries eight random bytes written as lower-case hexadecimal. The random
    bytes are a parameter of the model. */
module Login {
  import opened Types
  import opened Validation

  type Byte = b: int | 0 <= b < 256

  const HexDigits := "0123456789abcdef"

  predicate IsHexChar(c: char)
  {
    c in HexDigits
  }

  function HexDigit(n: int): (c: char)
    requires 0 <= n < 16
    ensures IsHexChar(c)
  {
    HexDigits[n]
  }

  /** The value of a lower-case hexadecimal digit. */
  function HexValue(c: char): (r: Option<int>)
    ensures r.Some? <==> IsHexChar(c)
    ensures r.Some? ==> 0 <= r.value < 16 && HexDigits[r.value] == c
  {
    if '0' <= c <= '9' then Some(c as int - '0' as int)
    else if 'a' <= c <= 'f' then Some(c as int - 'a' as int + 10)
    else None
  }

  /** Node's `buffer.toString('hex')`: two lower-case digits per byte, high
      nibble first. */
  function HexEncode(bytes: seq<Byte>): (s: string)
    ensures |s| == 2 * |bytes|
    ensures forall i :: 0 <= i < |s| ==> IsHexChar(s[i])
  {
    if bytes == [] then ""
    else [HexDigit(bytes[0] / 16), HexDigit(bytes[0] % 16)] + HexEncode(bytes[1..])
  }

  /** The byte whose high and low nibbles are `hi` and `lo`. */
  function ByteOf(hi: int, lo: int): Byte
    requires 0 <= hi < 16 && 0 <= lo < 16
  {
    hi * 16 + lo
  }

  /** Reads a hexadecimal string back into bytes, or fails on an odd length or
      a character that is not a lower-case hex digit. */
  function HexDecode(s: string): (r: Option<seq<Byte>>)
    ensures r.Some? ==> 2 * |r.value| == |s|
    decreases |s|
  {
    if s == [] then Some([])
    else if |s| == 1 then None
    else
      var hi, lo, rest := HexValue(s[0]), HexValue(s[1]), HexDecode(s[2..]);
      if hi.None? || lo.None? || rest.None? then None
      else Some([ByteOf(hi.value, lo.value)] + rest.value)
  }

  lemma HexValueOfDigit(n: int)
    requires 0 <= n < 16
    ensures HexValue(HexDigit(n)) == Some(n)
  {
  }

  lemma SplitByte(b: Byte)
    ensures 0 <= b / 16 < 16 && 0 <= b % 16 < 16 && ByteOf(b / 16, b % 16) == b
  {
  }

  /** Decoding the token gives back the random bytes it was made from. */
  lemma {:induction false} HexRoundTrip(bytes: seq<Byte>)
    ensures HexDecode(HexEncode(bytes)) == Some(bytes)
  {
    if bytes != [] {
      var b := bytes[0];
      var s := HexEncode(bytes);
      HexRoundTrip(bytes[1..]);
      SplitByte(b);
      HexValueOfDigit(b / 16);
      HexValueOfDigit(b % 16);
      assert s[0] == HexDigit(b / 16) && s[1] == HexDigit(b % 16);
      assert s[2..] == HexEncode(bytes[1..]);
      assert [b] + bytes[1..] == bytes;
    }
  }

  /** The whole login route: the check, then a token made from `random`, the
      eight bytes `crypto.randomBytes(8)` produced. */
  function PostLogin(req: Request, emailOk: string -> bool, random: seq<Byte>): (r: Reply)
    requires |random| == 8
    ensures EmailAndPassword(req, emailOk).Pass? ==>
              r.status == 200 && r.payload.TokenBody? &&
              |r.payload.token| == 16 && HexDecode(r.payload.token) == Some(random)
    ensures !EmailAndPassword(req, emailOk).Pass? ==>
              r == Refusal(EmailAndPassword(req, emailOk)) &&
              r.status == 400 && r.payload.Message? &&
              r.payload.text in {EmailRequired, EmailFormat, PasswordRequired, PasswordTooShort}
  {
    var c := EmailAndPassword(req, emailOk);
    if c.Pass? then HexRoundTrip(random); Reply(200, TokenBody(HexEncode(random))) else Refusal(c)
  }

  /** Any token login hands out gets through the authorization check, as does
      any other sixteen characters: the token is never compared with anything. */
  lemma {:induction false} LoginTokenPassesAuthorization(
    req: Request, emailOk: string -> bool, random: seq<Byte>, body: Body)
    requires |random| == 8
    ensures var r := PostLogin(req, emailOk, random);
      r.payload.TokenBody? ==> AuthorizationToken(Request(Some(r.payload.token), body)).Pass?
  {
  }
}
