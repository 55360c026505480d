/** `TencentCloudApi`: the TC3-HMAC-SHA256 signature of Tencent Cloud API 3.0
    requests. SHA-256 and HMAC-SHA256 are given functions (a `Crypto` value)
    and the clock reading is a parameter; everything else is exact text. */
module TencentCloudApi {
  import opened JavaText
  import opened UtcCalendar

  const ContentType: string := "application/json; charset=utf-8"
  const Version: string := "2019-12-05"
  const Algorithm: string := "TC3-HMAC-SHA256"
  const SignedHeaders: string := "content-type;host"
  const Tc3Request: string := "tc3_request"

  /** The certificate service and its host, as both request builders fix them. */
  const Service: string := "ssl"
  const Endpoint: string := Service + ".tencentcloudapi.com"
  const ActionDescribeCertificates: string := "DescribeCertificates"
  const ActionDescribeDownloadCertificateUrl: string := "DescribeDownloadCertificateUrl"

  /** The message digest and MAC the JDK supplies: `sha256(message)` and
      `hmac(key, message)`, over Java bytes. */
  datatype Crypto = Crypto(sha256: seq<JByte> -> seq<JByte>,
                           hmac: (seq<JByte>, seq<JByte>) -> seq<JByte>)

  // ---------------------------------------------------------------------
  // Lower-case hexadecimal

  predicate IsHexDigit(c: char) {
    ('0' <= c <= '9') || ('a' <= c <= 'f')
  }

  function HexDigit(n: nat): (c: char)
    requires n < 16
    ensures IsHexDigit(c)
  {
    if n < 10 then DigitChar(n) else (('a' as int) + n - 10) as char
  }

  /** The value of a hex digit; any other character reads as 0. */
  function HexValue(c: char): (n: nat)
    ensures n < 16
    ensures IsHexDigit(c) ==> HexDigit(n) == c
  {
    if '0' <= c <= '9' then (c as int) - ('0' as int)
    else if 'a' <= c <= 'f' then (c as int) - ('a' as int) + 10
    else 0
  }

  /** `Integer.toHexString(n)` for a non-negative `n`: lower-case digits, no
      leading zero. */
  function ToHexString(n: nat): (r: string)
    ensures |r| >= 1
    ensures forall i :: 0 <= i < |r| ==> IsHexDigit(r[i])
  {
    if n < 16 then [HexDigit(n)] else ToHexString(n / 16) + [HexDigit(n % 16)]
  }

  /** `0xff & b`: the unsigned reading of a Java byte. */
  function UnsignedByte(b: JByte): (u: nat)
    ensures u < 256 && ToJByte(u) == b
  {
    if b < 0 then b + 256 else b
  }

  /** What `bytesToHex` appends for one byte: `Integer.toHexString` of the
      unsigned value, with a '0' put in front when that is a single digit.
      The result is always the two hex digits of the byte, high one first. */
  function ByteHex(b: JByte): (r: string)
    ensures r == [HexDigit(UnsignedByte(b) / 16), HexDigit(UnsignedByte(b) % 16)]
  {
    var u := UnsignedByte(b);
    var hex := ToHexString(u);
    assert u >= 16 ==> hex == ToHexString(u / 16) + [HexDigit(u % 16)] && ToHexString(u / 16) == [HexDigit(u / 16)];
    if |hex| == 1 then "0" + hex else hex
  }

  /** The text `bytesToHex` builds for a byte array. */
  function HexOf(bytes: seq<JByte>): string {
    if bytes == [] then "" else HexOf(bytes[..|bytes| - 1]) + ByteHex(bytes[|bytes| - 1])
  }

  /** `bytesToHex`: one append per byte to a `StringBuilder`. */
  method BytesToHex(bytes: seq<JByte>) returns (hex: string)
    ensures hex == HexOf(bytes)
  {
    var hexString := "";
    var i := 0;
    while i < |bytes|
      invariant 0 <= i <= |bytes|
      invariant hexString == HexOf(bytes[..i])
    {
      ghost var before := hexString;
      var hex := ToHexString(UnsignedByte(bytes[i]));
      if |hex| == 1 {
        hexString := hexString + "0";
      }
      hexString := hexString + hex;
      assert hexString == before + ByteHex(bytes[i]);
      HexOfStep(bytes, i);
      i := i + 1;
    }
    assert bytes[..i] == bytes;
    hex := hexString;
  }

  lemma HexOfStep(bytes: seq<JByte>, i: nat)
    requires i < |bytes|
    ensures HexOf(bytes[..i + 1]) == HexOf(bytes[..i]) + ByteHex(bytes[i])
  {
    assert bytes[..i + 1][..i] == bytes[..i];
  }

  /** Two characters per byte, every one of them from `0-9a-f`. */
  lemma {:induction false} HexOfShape(bytes: seq<JByte>)
    ensures |HexOf(bytes)| == 2 * |bytes|
    ensures forall i :: 0 <= i < |HexOf(bytes)| ==> IsHexDigit(HexOf(bytes)[i])
  {
    if bytes != [] {
      var init := bytes[..|bytes| - 1];
      HexOfShape(init);
      var h, t := HexOf(init), ByteHex(bytes[|bytes| - 1]);
      assert HexOf(bytes) == h + t;
      assert forall i :: |h| <= i < |h| + 2 ==> (h + t)[i] == t[i - |h|];
    }
  }

  /** The trailing `toLowerCase()` applied to the hex text never changes it. */
  lemma HexOfIsLowerCase(bytes: seq<JByte>)
    ensures ToLowerAscii(HexOf(bytes)) == HexOf(bytes)
  {
    HexOfShape(bytes);
    ToLowerAsciiIdentity(HexOf(bytes));
  }

  /** Reading the text two hex digits at a time. */
  function DecodeHex(s: string): seq<JByte>
    decreases |s|
  {
    if |s| < 2 then []
    else DecodeHex(s[..|s| - 2]) + [ToJByte(16 * HexValue(s[|s| - 2]) + HexValue(s[|s| - 1]))]
  }

  lemma HexValueOfDigit(n: nat)
    requires n < 16
    ensures HexValue(HexDigit(n)) == n
  {
  }

  /** One byte's two digits read back as that byte. */
  lemma ByteHexDecodes(b: JByte)
    ensures IsHexDigit(ByteHex(b)[0]) && IsHexDigit(ByteHex(b)[1])
    ensures ToJByte(16 * HexValue(ByteHex(b)[0]) + HexValue(ByteHex(b)[1])) == b
  {
    var u := UnsignedByte(b);
    HexValueOfDigit(u / 16);
    HexValueOfDigit(u % 16);
    assert 16 * (u / 16) + u % 16 == u;
  }

  lemma DecodeHexSnoc(h: string, t: string, b: JByte)
    requires |t| == 2 && ToJByte(16 * HexValue(t[0]) + HexValue(t[1])) == b
    ensures DecodeHex(h + t) == DecodeHex(h) + [b]
  {
    var s := h + t;
    assert s[..|s| - 2] == h;
  }

  /** Reading pairs of hex digits gives back the bytes, so the encoding is
      injective: different digests never print alike. */
  lemma {:induction false} HexRoundTrip(bytes: seq<JByte>)
    ensures DecodeHex(HexOf(bytes)) == bytes
  {
    if bytes != [] {
      var init := bytes[..|bytes| - 1];
      assert init + [bytes[|bytes| - 1]] == bytes;
      HexRoundTrip(init);
      DecodeHexOfLast(bytes);
    }
  }

  /** Reading back the encoding of a non-empty array ends with its last byte. */
  lemma DecodeHexOfLast(bytes: seq<JByte>)
    requires bytes != []
    ensures DecodeHex(HexOf(bytes)) == DecodeHex(HexOf(bytes[..|bytes| - 1])) + [bytes[|bytes| - 1]]
  {
    var init, last := bytes[..|bytes| - 1], bytes[|bytes| - 1];
    assert HexOf(bytes) == HexOf(init) + ByteHex(last);
    ByteHexDecodes(last);
    DecodeHexSnoc(HexOf(init), ByteHex(last), last);
  }

  lemma HexOfInjective(a: seq<JByte>, b: seq<JByte>)
    requires HexOf(a) == HexOf(b)
    ensures a == b
  {
    HexRoundTrip(a);
    HexRoundTrip(b);
  }

  // ---------------------------------------------------------------------
  // Hashing and MAC over UTF-8 text

  /** `sha256Hex(s)`: lower-case hex of the SHA-256 of the UTF-8 bytes of `s`. */
  function Sha256Hex(c: Crypto, s: string): string {
    ToLowerAscii(HexOf(c.sha256(Utf8(s))))
  }

  /** `hmacSHA256(data, key)`. */
  function HmacSha256(c: Crypto, data: string, key: seq<JByte>): seq<JByte> {
    c.hmac(key, Utf8(data))
  }

  /** The payload hash is the plain hex of the digest, two digits per byte. */
  lemma Sha256HexIsHex(c: Crypto, s: string)
    ensures Sha256Hex(c, s) == HexOf(c.sha256(Utf8(s)))
    ensures |Sha256Hex(c, s)| == 2 * |c.sha256(Utf8(s))|
  {
    HexOfIsLowerCase(c.sha256(Utf8(s)));
    HexOfShape(c.sha256(Utf8(s)));
  }

  /** A character that is not a hex digit never appears in hex text. */
  lemma HexOfExcludes(bytes: seq<JByte>, ch: char)
    requires !IsHexDigit(ch)
    ensures ch !in HexOf(bytes)
  {
    HexOfShape(bytes);
  }

  lemma HexHasNo(s: string, ch: char)
    requires forall i :: 0 <= i < |s| ==> IsHexDigit(s[i])
    requires !IsHexDigit(ch)
    ensures ch !in s
  {
  }

  // ---------------------------------------------------------------------
  // The four signing steps

  /** `buildCanonicalRequest`: method, URI, empty query, the two canonical
      headers, the signed-header list and the payload hash, one per line. */
  function CanonicalRequest(c: Crypto, endPoint: string, payload: string): string {
    var canonicalHeaders := "content-type:" + ContentType + "\n" + "host:" + endPoint + "\n";
    "POST" + "\n" + "/" + "\n" + "" + "\n" + canonicalHeaders + "\n" + SignedHeaders + "\n"
    + Sha256Hex(c, payload)
  }

  lemma CanonicalRequestRegrouped(a: string, b: string, c: string, d: string, h: string, nl: string)
    ensures "POST" + nl + "/" + nl + "" + nl + (a + b + nl + c + d + nl) + nl + SignedHeaders + nl + h
            == "POST" + nl + "/" + nl + "" + nl + (a + b) + nl + (c + d) + nl + "" + nl
               + SignedHeaders + nl + h
  {
  }

  /** The eight lines of a canonical request. */
  function CanonicalLines(c: Crypto, endPoint: string, payload: string): seq<string> {
    ["POST", "/", "", "content-type:" + ContentType, "host:" + endPoint, "",
     SignedHeaders, Sha256Hex(c, payload)]
  }

  lemma CanonicalRequestIsJoin(c: Crypto, endPoint: string, payload: string)
    ensures CanonicalRequest(c, endPoint, payload) == Join(CanonicalLines(c, endPoint, payload), "\n")
  {
    var lines := CanonicalLines(c, endPoint, payload);
    JoinEight(lines, "\n");
    CanonicalRequestRegrouped("content-type:", ContentType, "host:", endPoint, Sha256Hex(c, payload), "\n");
  }

  lemma FixedTextHasNoLineBreak()
    ensures '\n' !in "content-type:" + ContentType && '\n' !in "host:"
    ensures '\n' !in "POST" && '\n' !in "/" && '\n' !in SignedHeaders
  {
  }

  lemma CanonicalLinesHaveNoLineBreak(c: Crypto, endPoint: string, payload: string)
    requires '\n' !in endPoint
    ensures forall i :: 0 <= i < |CanonicalLines(c, endPoint, payload)| ==>
              '\n' !in CanonicalLines(c, endPoint, payload)[i]
  {
    Sha256HexIsHex(c, payload);
    HexOfExcludes(c.sha256(Utf8(payload)), '\n');
    FixedTextHasNoLineBreak();
  }

  /** When the host has no line break, the canonical request reads back as
      exactly eight lines: POST, /, an empty query, the content-type and host
      headers, the blank line closing the header block, the signed-header
      list and the payload hash. */
  lemma CanonicalRequestLines(c: Crypto, endPoint: string, payload: string)
    requires '\n' !in endPoint
    ensures RawSplit(CanonicalRequest(c, endPoint, payload), "\n")
            == ["POST", "/", "", "content-type:" + ContentType, "host:" + endPoint, "",
                SignedHeaders, Sha256Hex(c, payload)]
  {
    CanonicalRequestIsJoin(c, endPoint, payload);
    CanonicalLinesHaveNoLineBreak(c, endPoint, payload);
    SplitJoinInverse(CanonicalLines(c, endPoint, payload), "\n");
  }

  /** `buildStringToSign`. */
  function StringToSign(c: Crypto, timestamp: string, credentialScope: string,
                        canonicalRequest: string): string
  {
    Algorithm + "\n" + timestamp + "\n" + credentialScope + "\n" + Sha256Hex(c, canonicalRequest)
  }

  /** The string to sign reads back as four lines: the algorithm name, the
      timestamp, the credential scope and the hash of the canonical request. */
  lemma StringToSignLines(c: Crypto, timestamp: string, scope: string, canonicalRequest: string)
    requires '\n' !in timestamp && '\n' !in scope
    ensures RawSplit(StringToSign(c, timestamp, scope, canonicalRequest), "\n")
            == [Algorithm, timestamp, scope, Sha256Hex(c, canonicalRequest)]
  {
    var h := Sha256Hex(c, canonicalRequest);
    Sha256HexIsHex(c, canonicalRequest);
    HexOfExcludes(c.sha256(Utf8(canonicalRequest)), '\n');
    AlgorithmIsOneLine();
    SplitFourLines(Algorithm, timestamp, scope, h);
  }

  lemma AlgorithmIsOneLine()
    ensures '\n' !in Algorithm
  {
    assert forall i :: 0 <= i < |Algorithm| ==> Algorithm[i] != '\n';
  }

  lemma SplitFourLines(a: string, b: string, c: string, d: string)
    requires '\n' !in a && '\n' !in b && '\n' !in c && '\n' !in d
    ensures RawSplit(a + "\n" + b + "\n" + c + "\n" + d, "\n") == [a, b, c, d]
  {
    var lines := [a, b, c, d];
    JoinFour(lines, "\n");
    SplitJoinInverse(lines, "\n");
  }

  /** `getSignatureKey`: three chained HMACs, the first keyed with
      "TC3" + secretKey. */
  function SignatureKey(c: Crypto, secretKey: string, date: string, service: string): seq<JByte> {
    var secretDate := HmacSha256(c, date, Utf8("TC3" + secretKey));
    var secretService := HmacSha256(c, service, secretDate);
    HmacSha256(c, Tc3Request, secretService)
  }

  /** HMAC applied along a list of messages, each step keyed with the
      previous step's output. */
  function HmacChain(c: Crypto, key: seq<JByte>, messages: seq<string>): seq<JByte>
    decreases |messages|
  {
    if messages == [] then key else HmacChain(c, c.hmac(key, Utf8(messages[0])), messages[1..])
  }

  /** The signing key is the HMAC chain over date, service and "tc3_request",
      started from the UTF-8 bytes of "TC3" followed by those of the secret key. */
  lemma SignatureKeyIsChain(c: Crypto, secretKey: string, date: string, service: string)
    ensures SignatureKey(c, secretKey, date, service)
            == HmacChain(c, Utf8("TC3") + Utf8(secretKey), [date, service, Tc3Request])
  {
    Utf8Append("TC3", secretKey);
    var k0 := c.hmac(Utf8("TC3" + secretKey), Utf8(date));
    var k1 := c.hmac(k0, Utf8(service));
    assert [date, service, Tc3Request][1..] == [service, Tc3Request];
    assert [service, Tc3Request][1..] == [Tc3Request];
    assert HmacChain(c, k1, [Tc3Request]) == HmacChain(c, c.hmac(k1, Utf8(Tc3Request)), []);
  }

  /** The credential scope `date/service/tc3_request`. */
  function CredentialScope(date: string, service: string): string {
    date + "/" + service + "/" + Tc3Request
  }

  /** The request signature: lower-case hex of the HMAC of the string to sign. */
  function Signature(c: Crypto, signingKey: seq<JByte>, stringToSign: string): string {
    ToLowerAscii(HexOf(HmacSha256(c, stringToSign, signingKey)))
  }

  /** The `Authorization` header value. */
  function Authorization(secretId: string, credentialScope: string, signature: string): string {
    Algorithm + " Credential=" + secretId + "/" + credentialScope + ", SignedHeaders="
    + SignedHeaders + ", Signature=" + signature
  }

  lemma AuthorizationRegrouped(a: string, sep: string, b1: string, b2: string, d1: string, d2: string)
    ensures a + (sep + b1) + b2 + (sep + d1) + d2 == a + sep + (b1 + b2) + sep + (d1 + d2)
  {
  }

  /** Split at ", ", the header gives back its three parts: the credential
      (secret id and scope), the signed-header list and the signature. */
  lemma AuthorizationFields(secretId: string, scope: string, signature: string)
    requires ',' !in secretId && ',' !in scope
    requires forall i :: 0 <= i < |signature| ==> IsHexDigit(signature[i])
    ensures RawSplit(Authorization(secretId, scope, signature), ", ")
            == [Algorithm + " Credential=" + secretId + "/" + scope,
                "SignedHeaders=" + SignedHeaders, "Signature=" + signature]
  {
    var a := Algorithm + " Credential=" + secretId + "/" + scope;
    var b := "SignedHeaders=" + SignedHeaders;
    var d := "Signature=" + signature;
    HexHasNo(signature, ',');
    assert ',' !in a;
    assert ',' !in d;
    var fields := [a, b, d];
    JoinThree(fields, ", ");
    assert ", SignedHeaders=" == ", " + "SignedHeaders=";
    assert ", Signature=" == ", " + "Signature=";
    AuthorizationRegrouped(a, ", ", "SignedHeaders=", SignedHeaders, "Signature=", signature);
    SplitJoinInverse(fields, ", ");
  }

  /** Everything the `Authorization` header carries for a request signed at
      `seconds` since the epoch. */
  function AuthorizationFor(c: Crypto, secretId: string, secretKey: string, service: string,
                            endPoint: string, payload: string, seconds: nat): string
  {
    var timestamp := NatToDecimal(seconds);
    var date := UtcDate(seconds * 1000);
    var scope := CredentialScope(date, service);
    var stringToSign := StringToSign(c, timestamp, scope, CanonicalRequest(c, endPoint, payload));
    Authorization(secretId, scope, Signature(c, SignatureKey(c, secretKey, date, service), stringToSign))
  }

  /** The scope's date is the UTC calendar day of the timestamp's seconds. */
  lemma ScopeDateIsUtcDay(seconds: nat)
    ensures UtcDate(seconds * 1000) == FormatDate(CivilFromDays(seconds / 86400))
  {
    var q, r := seconds / 86400, seconds % 86400;
    assert seconds * 1000 == q * MillisPerDay + r * 1000;
    assert 0 <= r * 1000 < MillisPerDay;
    assert (seconds * 1000) / MillisPerDay == q;
  }

  /** The timestamp text parses back, as a `long`, to the seconds it renders. */
  lemma TimestampParses(seconds: nat)
    requires seconds <= MaxInt64
    ensures ParseLong(NatToDecimal(seconds)) == Some(seconds)
  {
    ParseSignedOfDecimal(seconds, MinInt64, MaxInt64);
  }

  /** The five request headers. */
  function HeaderMap(action: string, authorization: string, timestamp: string): map<string, string> {
    map["Content-Type" := ContentType, "Authorization" := authorization, "X-TC-Action" := action,
        "X-TC-Version" := Version, "X-TC-Timestamp" := timestamp]
  }

  /** Exactly the five headers the API requires, each carrying its value. */
  lemma HeaderMapFields(action: string, authorization: string, timestamp: string)
    ensures HeaderMap(action, authorization, timestamp).Keys
            == {"Content-Type", "Authorization", "X-TC-Action", "X-TC-Version", "X-TC-Timestamp"}
    ensures HeaderMap(action, authorization, timestamp)["Content-Type"] == ContentType
    ensures HeaderMap(action, authorization, timestamp)["Authorization"] == authorization
    ensures HeaderMap(action, authorization, timestamp)["X-TC-Action"] == action
    ensures HeaderMap(action, authorization, timestamp)["X-TC-Version"] == Version
    ensures HeaderMap(action, authorization, timestamp)["X-TC-Timestamp"] == timestamp
  {
  }

  /** `buildHeaders`: reads the clock once (`nowMillis`), renders the
      timestamp in whole seconds, derives the UTC date from that same
      timestamp, signs, and fills a map with five `put`s. */
  method BuildHeaders(c: Crypto, action: string, secretId: string, secretKey: string,
                      service: string, endPoint: string, payload: string, nowMillis: nat)
    returns (headers: map<string, string>)
    requires nowMillis <= MaxInt64
    ensures headers == HeaderMap(action,
      AuthorizationFor(c, secretId, secretKey, service, endPoint, payload, nowMillis / 1000),
      NatToDecimal(nowMillis / 1000))
    ensures ParseLong(headers["X-TC-Timestamp"]) == Some(nowMillis / 1000)
  {
    var timestamp := NatToDecimal(nowMillis / 1000);
    TimestampParses(nowMillis / 1000);
    var seconds := ParseLong(timestamp).value;
    var date := UtcDate(seconds * 1000);

    var canonicalRequest := CanonicalRequest(c, endPoint, payload);
    var credentialScope := date + "/" + service + "/" + Tc3Request;
    var stringToSign := StringToSign(c, timestamp, credentialScope, canonicalRequest);
    var signingKey := SignatureKey(c, secretKey, date, service);
    var hex := BytesToHex(HmacSha256(c, stringToSign, signingKey));
    var signature := ToLowerAscii(hex);

    var authorization := Authorization(secretId, credentialScope, signature);
    assert credentialScope == CredentialScope(date, service);
    assert signature == Signature(c, signingKey, stringToSign);
    assert authorization
           == AuthorizationFor(c, secretId, secretKey, service, endPoint, payload, nowMillis / 1000);

    headers := map[];
    headers := headers["Content-Type" := ContentType];
    headers := headers["Authorization" := authorization];
    headers := headers["X-TC-Action" := action];
    headers := headers["X-TC-Version" := Version];
    headers := headers["X-TC-Timestamp" := timestamp];
  }

  lemma ScopeHasNoLineBreak(date: string, service: string)
    requires '\n' !in date && '\n' !in service
    ensures '\n' !in CredentialScope(date, service)
  {
    assert '\n' !in Tc3Request;
  }

  /** The string a request signed at `seconds` carries: its second line is
      the decimal timestamp sent as X-TC-Timestamp, and its scope line starts
      with the UTC calendar day of that same instant. */
  lemma SignedStringFor(c: Crypto, service: string, endPoint: string, payload: string, seconds: nat)
    requires '\n' !in service
    ensures var date := UtcDate(seconds * 1000);
            var scope := CredentialScope(date, service);
            date == FormatDate(CivilFromDays(seconds / 86400)) &&
            RawSplit(StringToSign(c, NatToDecimal(seconds), scope, CanonicalRequest(c, endPoint, payload)), "\n")
            == [Algorithm, NatToDecimal(seconds), scope, Sha256Hex(c, CanonicalRequest(c, endPoint, payload))]
  {
    ScopeDateIsUtcDay(seconds);
    var date := UtcDate(seconds * 1000);
    FormatDateChars(CivilFromDays(seconds / 86400));
    var scope := CredentialScope(date, service);
    var timestamp := NatToDecimal(seconds);
    assert '\n' !in timestamp by {
      forall i | 0 <= i < |timestamp| ensures timestamp[i] != '\n' {
        assert IsDigit(timestamp[i]);
      }
    }
    assert '\n' !in date by {
      forall i | 0 <= i < |date| ensures date[i] != '\n' {
        assert IsDigit(date[i]) || date[i] == '-';
      }
    }
    ScopeHasNoLineBreak(date, service);
    StringToSignLines(c, timestamp, scope, CanonicalRequest(c, endPoint, payload));
  }

  /** A request ready for the transport: host, JSON body and signed headers. */
  datatype Request = Request(endPoint: string, payload: string, headers: map<string, string>)

  /** The request `describeCertificates` and `describeDownloadCertificateUrl`
      send for an action and a query: to the certificate service's host, the
      query's JSON text as body, and the five signed headers. */
  function SignedRequest(c: Crypto, action: string, payload: string, secretId: string,
                         secretKey: string, nowMillis: nat): Request
  {
    Request(Endpoint, payload, HeaderMap(action,
      AuthorizationFor(c, secretId, secretKey, Service, Endpoint, payload, nowMillis / 1000),
      NatToDecimal(nowMillis / 1000)))
  }

  /** The part of `describeCertificates` and `describeDownloadCertificateUrl`
      before the network: service "ssl", its host, the action's name, the
      query's JSON text as payload, and the signed headers. */
  method PrepareRequest(c: Crypto, action: string, payload: string, secretId: string,
                        secretKey: string, nowMillis: nat) returns (req: Request)
    requires nowMillis <= MaxInt64
    ensures req == SignedRequest(c, action, payload, secretId, secretKey, nowMillis)
  {
    var service := Service;
    var endpoint := service + ".tencentcloudapi.com";
    var headers := BuildHeaders(c, action, secretId, secretKey, service, endpoint, payload, nowMillis);
    req := Request(endpoint, payload, headers);
  }
}
