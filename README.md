# auto-refresh-ssl-cert, modelled in Dafny

This project models the core of auto-refresh-ssl-cert, a small Java service that keeps an inventory of SSL certificates. It draws the inventory from two places:
- the certificate files under the local web-server directories;
- the certificates that a Tencent Cloud account lists through the SSL API.

The modelled core covers:

- **Credential file** (`CertService.loadApiKeys`). Each line has the form `platform@@secretId@@secretKey[@@accountId]`. Lines are trimmed, and blank lines and `#` comments are skipped. A line is kept only when its platform is on the allow-list ("tencent") and its three leading fields are non-empty.
- **Local scan** (`CertService.scanLocalCerts` / `processCertFile`):
  - Each `*.crt` file found under the configured roots is paired with a private key in three ways:
    - by its name (`<domain>_bundle.crt` or `<domain>.crt` next to `<domain>.key`);
    - by a directory named `<domain>` or `<domain>_nginx`, in which case the first `*.key` entry is used;
    - otherwise it is dropped.
  - A pair is kept only when its expiry can be read.
- **Inventory reconciliation** (`CertService.updateConfigWithLocalCerts` and `queryCloudCerts`):
  - The existing entries are indexed by domain, and the first entry wins.
  - Every observed domain patches its entry.
  - An unseen domain gets a new entry with a random 8-character id and `enable = false`.
  - The inventory is replaced by the index's values and saved.
- **Cloud mapping** (`TencentCloudPlatformApi.getCertInfoList`, `CloudPlatformActionBase`):
  - A listed certificate becomes an inventory entry, with its validity in months times 30 wrapped to a Java `int`.
  - The platform dispatch turns every failure into an empty list.
- **TC3-HMAC-SHA256 request signing** (`TencentCloudApi`):
  - the canonical request, the string to sign, the credential scope with the UTC date, and the chained signing key;
  - the lower-case hex encoding of Java signed bytes;
  - the `Authorization` header and the five request headers.
- **Helpers:**
  - the PEM marker check and the expiry lookup (`CertUtils`);
  - the random identifier and the null-or-empty test (`CommonUtils`);
  - command-line parsing (`CommandLineArgs`).

`JavaText` gives the `java.lang` behaviour the core relies on, with the same edge cases:
- `trim` strips everything `<= ' '`;
- `split` drops trailing empty strings;
- `replace` replaces every occurrence;
- `indexOf`/`contains`;
- `Integer.parseInt` and `Long.parseLong` (sign, range, empty input);
- `String.valueOf(long)`, UTF-8 encoding and 32-bit wrap-around.

`UtcCalendar` gives the `yyyy-MM-dd` rendering of an instant in UTC.

The model replaces these effects with parameters:
- The clock is a `nowMillis` argument.
- `Math.random()` is a stream `random: nat -> Draw` of values in 0..61, consumed from a counter.
- SHA-256 and HMAC are the functions of a `Crypto` value.
- The network is a `transport` function from a signed `Request` to a `Fetch`.
- `SimpleDateFormat.parse` is a `parse` function.
- Reading a certificate file is a `content` function, and X.509 decoding is a `decode` function.
- The directory tree is a `FileSystem` map from directory path to its entries, and `Files.walkFileTree` is a `walk` function.
- A `HashMap`'s iteration order is an `order` argument.

## Model

| member | source | states |
|---|---|---|
| JavaText.Wrap32 | src/main/java/cn/sleepybear/model/TencentCloudPlatformApi.java:41 | the result is the Java `int` congruent to the input modulo 2^32, and equals the input when it is in range |
| JavaText.TrimStart | src/main/java/cn/sleepybear/service/CertService.java:68 | the result is a suffix of the input, everything removed is a blank (`<= ' '`), and it does not start with a blank |
| JavaText.TrimEnd | src/main/java/cn/sleepybear/service/CertService.java:68 | the result is a prefix of the input, everything removed is a blank, and it does not end with a blank |
| JavaText.Trim | src/main/java/cn/sleepybear/service/CertService.java:68 | a trimmed string is empty or starts and ends with a non-blank |
| JavaText.TrimIdentity | src/main/java/cn/sleepybear/service/CertService.java:77-80 | a string with no blank at either end is left unchanged by trim |
| JavaText.TrimIdempotent | src/main/java/cn/sleepybear/service/CertService.java:68 | trimming twice equals trimming once |
| JavaText.ToLowerAscii | src/main/java/cn/sleepybear/util/TencentCloudApi.java:146 | `toLowerCase` maps each character by itself and keeps the length |
| JavaText.ToLowerAsciiIdentity | src/main/java/cn/sleepybear/util/TencentCloudApi.java:172 | text without upper-case letters is unchanged by `toLowerCase` |
| JavaText.OccursAtTail | src/main/java/cn/sleepybear/util/CertUtils.java:56 | an occurrence in the tail is an occurrence one place later in the whole string |
| JavaText.IndexOf | src/main/java/cn/sleepybear/util/CertUtils.java:56 | the index found is an occurrence and no earlier position is one; None means no occurrence anywhere |
| JavaText.Contains | src/main/java/cn/sleepybear/util/CertUtils.java:56 | `contains` holds exactly when some position is an occurrence |
| JavaText.NoOccurrenceWithoutHead | src/main/java/cn/sleepybear/util/CertUtils.java:56 | text lacking the pattern's first character does not contain the pattern |
| JavaText.RawSplit | src/main/java/cn/sleepybear/service/CertService.java:75 | splitting yields at least one piece |
| JavaText.RawSplitJoin | src/main/java/cn/sleepybear/service/CertService.java:75 | joining the pieces with the separator gives the input back |
| JavaText.RawSplitPiecesFree | src/main/java/cn/sleepybear/service/CertService.java:75 | no piece contains the separator |
| JavaText.SplitCons | src/main/java/cn/sleepybear/service/CertService.java:75 | a leading field free of the separator's first character splits off as the first piece |
| JavaText.SplitSingle | src/main/java/cn/sleepybear/service/CertService.java:75 | text free of the separator's first character is a single piece |
| JavaText.SplitJoinInverse | src/main/java/cn/sleepybear/service/CertService.java:75 | splitting the join of separator-free fields gives those fields back |
| JavaText.DropTrailingEmpty | src/main/java/cn/sleepybear/service/CertService.java:75 | `split` keeps a prefix of the pieces, drops only empty strings, and never ends with an empty piece |
| JavaText.Split | src/main/java/cn/sleepybear/service/CertService.java:75 | `split("@@")`: text without the separator is one piece; otherwise the pieces between the separators, less the trailing empty ones |
| JavaText.Replace | src/main/java/cn/sleepybear/service/CertService.java:175 | `replace` substitutes every occurrence of the target, left to right, without overlap |
| JavaText.ReplaceAbsent | src/main/java/cn/sleepybear/service/CertService.java:175 | `replace` of an absent target leaves the text unchanged |
| JavaText.ReplaceStripsSuffix | src/main/java/cn/sleepybear/service/CertService.java:175 | removing "_nginx" from `<d>_nginx` gives `d` when `d` has no "_nginx" |
| JavaText.DigitChar | src/main/java/cn/sleepybear/util/TencentCloudApi.java:163 | a digit value renders as a decimal digit |
| JavaText.DigitValue | src/main/java/cn/sleepybear/util/TencentCloudApi.java:166 | a digit's value is below 10 and renders back as the same digit |
| JavaText.NatToDecimal | src/main/java/cn/sleepybear/util/TencentCloudApi.java:163 | `String.valueOf` of a non-negative number is a non-empty run of digits without a leading zero |
| JavaText.DecimalRoundTrip | src/main/java/cn/sleepybear/util/TencentCloudApi.java:163-166 | the value of the rendered digits is the number rendered |
| JavaText.ParseSigned | src/main/java/cn/sleepybear/config/CommandLineArgs.java:27 | a parsed value lies in the type's range and comes from non-empty text |
| JavaText.ParseInt | src/main/java/cn/sleepybear/config/CommandLineArgs.java:27 | `Integer.parseInt` yields only 32-bit values |
| JavaText.ParseLong | src/main/java/cn/sleepybear/util/TencentCloudApi.java:166 | `Long.parseLong` yields only 64-bit values |
| JavaText.ParseSignedOfDecimal | src/main/java/cn/sleepybear/util/TencentCloudApi.java:163-166 | the decimal text of an in-range number parses back to it; with a minus sign it parses to the negation, or fails below the range |
| JavaText.ParseSignedOfIntDecimal | src/main/java/cn/sleepybear/config/CommandLineArgs.java:25-28 | the decimal text of any in-range int, negative ones included, parses back to that int |
| JavaText.ToJByte | src/main/java/cn/sleepybear/util/TencentCloudApi.java:155 | the signed byte whose two's-complement reading is the unsigned value |
| JavaText.Utf8Char | src/main/java/cn/sleepybear/util/TencentCloudApi.java:139 | a character encodes to 1 to 4 bytes, and to itself alone exactly when it is ASCII |
| JavaText.Utf8 | src/main/java/cn/sleepybear/util/TencentCloudApi.java:145 | the encoding is between one and four bytes per character |
| JavaText.Utf8Append | src/main/java/cn/sleepybear/util/TencentCloudApi.java:131 | the encoding of a concatenation is the concatenation of the encodings |
| JavaText.Utf8Ascii | src/main/java/cn/sleepybear/util/TencentCloudApi.java:139 | ASCII text encodes byte for byte |
| UtcCalendar.MonthLength | src/main/java/cn/sleepybear/util/TencentCloudApi.java:164-166 | every month has 28 to 31 days |
| UtcCalendar.RemainingDaysOfYear | src/main/java/cn/sleepybear/util/TencentCloudApi.java:164-166 | the months of a year add up to its length |
| UtcCalendar.FromMonth | src/main/java/cn/sleepybear/util/TencentCloudApi.java:164-166 | a day count within the rest of the year lands on a valid day of that year |
| UtcCalendar.FromYear | src/main/java/cn/sleepybear/util/TencentCloudApi.java:164-166 | a day count from a year on lands on a valid date no earlier |
| UtcCalendar.CivilFromDays | src/main/java/cn/sleepybear/util/TencentCloudApi.java:164-166 | days since 1970-01-01 map to a valid Gregorian date |
| UtcCalendar.FromMonthCounts | src/main/java/cn/sleepybear/util/TencentCloudApi.java:164-166 | the date reached counts back to the day count within its year |
| UtcCalendar.FromYearCounts | src/main/java/cn/sleepybear/util/TencentCloudApi.java:164-166 | the date reached counts back to the day count from its start year |
| UtcCalendar.CivilFromDaysRoundTrip | src/main/java/cn/sleepybear/util/TencentCloudApi.java:164-166 | counting days back from the date gives the original count |
| UtcCalendar.CivilFromDaysInjective | src/main/java/cn/sleepybear/util/TencentCloudApi.java:164-166 | different days render as different dates |
| UtcCalendar.ZeroPad | src/main/java/cn/sleepybear/util/TencentCloudApi.java:164 | left-padding with zeros reaches the width, keeps the text as a suffix and keeps it all-digit |
| UtcCalendar.DecimalLength | src/main/java/cn/sleepybear/util/TencentCloudApi.java:164 | numbers below 10, 100, 1000 and 10000 render in at most 1, 2, 3 and 4 digits |
| UtcCalendar.FormatDate | src/main/java/cn/sleepybear/util/TencentCloudApi.java:164 | `yyyy-MM-dd`: the year padded to four digits, the month and the day to two, joined by dashes |
| UtcCalendar.UtcDate | src/main/java/cn/sleepybear/util/TencentCloudApi.java:164-166 | the UTC calendar day of an instant, rendered as `yyyy-MM-dd` |
| UtcCalendar.FieldsShape | src/main/java/cn/sleepybear/util/TencentCloudApi.java:164 | a 4-2-2 digit join is ten characters, with dashes at positions 4 and 7 and digits elsewhere |
| UtcCalendar.FormatDateShape | src/main/java/cn/sleepybear/util/TencentCloudApi.java:164 | a date up to year 9999 renders as `yyyy-MM-dd` |
| UtcCalendar.FormatDateChars | src/main/java/cn/sleepybear/util/TencentCloudApi.java:164 | a rendered date holds only digits and dashes |
| UtcCalendar.EpochDate | src/main/java/cn/sleepybear/util/TencentCloudApi.java:164-166 | instant 0 is the UTC day 1970-01-01 |
| CommonUtils.NotNullOrEmpty | src/main/java/cn/sleepybear/util/CommonUtils.java:40-42 | false exactly for null and for the empty string |
| CommonUtils.BlankIsNotEmpty | src/main/java/cn/sleepybear/util/CommonUtils.java:40-42 | a string of blanks passes the test: it does not trim |
| CommonUtils.DrawChar | src/main/java/cn/sleepybear/util/CommonUtils.java:28-35 | draws 0-9 give the digits, 10-35 the upper-case letters and 36-61 the lower-case letters, each in order |
| CommonUtils.DrawCharBijection | src/main/java/cn/sleepybear/util/CommonUtils.java:28-35 | the 62 draws map one-to-one onto the ASCII letters and digits |
| CommonUtils.DrawnString | src/main/java/cn/sleepybear/util/CommonUtils.java:25-38 | the drawn string has the requested length |
| CommonUtils.DrawnStringIsRandomId | src/main/java/cn/sleepybear/util/CommonUtils.java:25-38 | a drawn string holds only ASCII letters and digits |
| CommonUtils.RandomString | src/main/java/cn/sleepybear/util/CommonUtils.java:25-38 | the loop yields max(length, 0) characters, the i-th being the character of the i-th draw |
| TencentCloudApi.HexDigit | src/main/java/cn/sleepybear/util/TencentCloudApi.java:155 | a nibble renders as a lower-case hex digit |
| TencentCloudApi.HexValue | src/main/java/cn/sleepybear/util/TencentCloudApi.java:155 | a hex digit's value is a nibble that renders back as the digit |
| TencentCloudApi.ToHexString | src/main/java/cn/sleepybear/util/TencentCloudApi.java:155 | `Integer.toHexString` is a non-empty run of hex digits |
| TencentCloudApi.UnsignedByte | src/main/java/cn/sleepybear/util/TencentCloudApi.java:155 | `0xff & b` is in 0..255 and names the same byte |
| TencentCloudApi.ByteHex | src/main/java/cn/sleepybear/util/TencentCloudApi.java:155-157 | each byte becomes exactly two hex digits, high nibble first, a leading zero padded in |
| TencentCloudApi.HexOf | src/main/java/cn/sleepybear/util/TencentCloudApi.java:152-160 | `bytesToHex`: the two-digit lower-case hex of each byte, in order |
| TencentCloudApi.BytesToHex | src/main/java/cn/sleepybear/util/TencentCloudApi.java:152-160 | the loop's output is the two-digit hex of every byte in order |
| TencentCloudApi.HexOfShape | src/main/java/cn/sleepybear/util/TencentCloudApi.java:152-160 | the hex text is twice as long as the bytes and all hex digits |
| TencentCloudApi.HexOfIsLowerCase | src/main/java/cn/sleepybear/util/TencentCloudApi.java:146 | the trailing `toLowerCase()` changes nothing |
| TencentCloudApi.HexValueOfDigit | src/main/java/cn/sleepybear/util/TencentCloudApi.java:155 | rendering a nibble and reading it back gives the nibble |
| TencentCloudApi.ByteHexDecodes | src/main/java/cn/sleepybear/util/TencentCloudApi.java:155-157 | the two digits of a byte decode to that byte |
| TencentCloudApi.DecodeHexSnoc | src/main/java/cn/sleepybear/util/TencentCloudApi.java:152-160 | decoding text with two more digits appends their byte |
| TencentCloudApi.HexRoundTrip | src/main/java/cn/sleepybear/util/TencentCloudApi.java:152-160 | decoding the hex gives the bytes back |
| TencentCloudApi.HexOfInjective | src/main/java/cn/sleepybear/util/TencentCloudApi.java:152-160 | different byte arrays have different hex text |
| TencentCloudApi.Sha256HexIsHex | src/main/java/cn/sleepybear/util/TencentCloudApi.java:142-150 | the payload hash is the plain hex of the digest of the UTF-8 bytes, two digits per byte |
| TencentCloudApi.HexOfExcludes | src/main/java/cn/sleepybear/util/TencentCloudApi.java:152-160 | hex text holds no character that is not a hex digit |
| TencentCloudApi.HexHasNo | src/main/java/cn/sleepybear/util/TencentCloudApi.java:172 | all-hex text holds no non-hex character |
| TencentCloudApi.CanonicalRequest | src/main/java/cn/sleepybear/util/TencentCloudApi.java:111-124 | the canonical request: POST, "/", an empty query, the content-type and host headers, the signed header names and the payload hash |
| TencentCloudApi.CanonicalRequestIsJoin | src/main/java/cn/sleepybear/util/TencentCloudApi.java:111-124 | the canonical request is its eight lines joined by line breaks |
| TencentCloudApi.CanonicalLinesHaveNoLineBreak | src/main/java/cn/sleepybear/util/TencentCloudApi.java:111-124 | for a host without a line break, no canonical line holds one |
| TencentCloudApi.CanonicalRequestLines | src/main/java/cn/sleepybear/util/TencentCloudApi.java:111-124 | the canonical request reads back as exactly: POST, /, empty query, content-type, host, blank, signed headers, payload hash |
| TencentCloudApi.StringToSign | src/main/java/cn/sleepybear/util/TencentCloudApi.java:126-128 | the algorithm name, the timestamp, the credential scope and the hash of the canonical request, one per line |
| TencentCloudApi.StringToSignLines | src/main/java/cn/sleepybear/util/TencentCloudApi.java:126-128 | the string to sign reads back as: algorithm, timestamp, scope, hash of the canonical request |
| TencentCloudApi.SignatureKey | src/main/java/cn/sleepybear/util/TencentCloudApi.java:130-134 | three chained HMACs over date, service and "tc3_request", the first keyed with the UTF-8 bytes of "TC3" + secretKey |
| TencentCloudApi.CredentialScope | src/main/java/cn/sleepybear/util/TencentCloudApi.java:169 | `date/service/tc3_request` |
| TencentCloudApi.Signature | src/main/java/cn/sleepybear/util/TencentCloudApi.java:172 | the lower-case hex of the HMAC of the string to sign under the signing key |
| TencentCloudApi.SignatureKeyIsChain | src/main/java/cn/sleepybear/util/TencentCloudApi.java:130-140 | the signing key is the HMAC chain over date, service and "tc3_request", keyed first by "TC3" + secretKey |
| TencentCloudApi.Authorization | src/main/java/cn/sleepybear/util/TencentCloudApi.java:174 | `TC3-HMAC-SHA256 Credential=id/scope, SignedHeaders=content-type;host, Signature=sig` |
| TencentCloudApi.AuthorizationFields | src/main/java/cn/sleepybear/util/TencentCloudApi.java:174 | split at ", ", the header gives back the credential, the signed-header list and the signature |
| TencentCloudApi.ScopeDateIsUtcDay | src/main/java/cn/sleepybear/util/TencentCloudApi.java:163-166 | the scope date is the UTC calendar day of the timestamp's second count |
| TencentCloudApi.TimestampParses | src/main/java/cn/sleepybear/util/TencentCloudApi.java:163-166 | the timestamp text parses back, as a long, to the seconds it renders |
| TencentCloudApi.HeaderMap | src/main/java/cn/sleepybear/util/TencentCloudApi.java:176-182 | the five request headers: Content-Type, Authorization, X-TC-Action, X-TC-Version and X-TC-Timestamp |
| TencentCloudApi.HeaderMapFields | src/main/java/cn/sleepybear/util/TencentCloudApi.java:176-182 | exactly the five API headers, each with its value |
| TencentCloudApi.BuildHeaders | src/main/java/cn/sleepybear/util/TencentCloudApi.java:162-183 | the headers carry the authorization signed for the clock's whole seconds, and the timestamp header parses back to those seconds |
| TencentCloudApi.ScopeHasNoLineBreak | src/main/java/cn/sleepybear/util/TencentCloudApi.java:169 | the credential scope holds no line break when date and service hold none |
| TencentCloudApi.SignedStringFor | src/main/java/cn/sleepybear/util/TencentCloudApi.java:162-172 | a request signed at second s signs four lines: the algorithm, s in decimal, a scope starting with s's UTC day, and the canonical hash |
| TencentCloudApi.PrepareRequest | src/main/java/cn/sleepybear/util/TencentCloudApi.java:79-86 | `describeCertificates` sends the query's JSON to ssl.tencentcloudapi.com with the headers signed for service "ssl" |
| Records.NewInfo | src/main/java/cn/sleepybear/model/PlatformSslCertInfo.java:12-23 | a fresh entry has null references and `validDays` 90 |
| CertUtils.IsPemContentValid | src/main/java/cn/sleepybear/util/CertUtils.java:53-57 | both PEM markers occur somewhere in the text |
| CertUtils.GetCertificateExpireTime | src/main/java/cn/sleepybear/util/CertUtils.java:13-40 | an expiry comes back exactly when the file reads as non-empty text holding both PEM markers that decodes; it is the decoder's notAfter |
| CertUtils.MarkersInAnyOrder | src/main/java/cn/sleepybear/util/CertUtils.java:53-57 | the marker check accepts both markers in either order with anything around them |
| CertUtils.NoDashNoExpiry | src/main/java/cn/sleepybear/util/CertUtils.java:17-24 | text without a '-' never reaches the decoder and has no expiry |
| TencentCloudPlatformApi.ParseTime | src/main/java/cn/sleepybear/model/TencentCloudPlatformApi.java:38-40 | a null time text fails, and any other text is the parser's result |
| TencentCloudPlatformApi.ConvertCertificate | src/main/java/cn/sleepybear/model/TencentCloudPlatformApi.java:34-48 | one certificate's record, or an exception (`None`) for a null or unparsable time or a null validity period |
| TencentCloudPlatformApi.ConvertedFields | src/main/java/cn/sleepybear/model/TencentCloudPlatformApi.java:33-50 | a certificate converts exactly when its three times parse and its validity is present; the entry carries its id, domain, times, status, remark, ignore flag and the key's account id |
| TencentCloudPlatformApi.ValidDaysIsThirtyPerMonth | src/main/java/cn/sleepybear/model/TencentCloudPlatformApi.java:41 | the validity in days is 30 per month, wrapped to a Java int |
| TencentCloudPlatformApi.ValidDaysWraps | src/main/java/cn/sleepybear/model/TencentCloudPlatformApi.java:41 | a large enough validity overflows to a negative day count |
| TencentCloudPlatformApi.ConvertAll | src/main/java/cn/sleepybear/model/TencentCloudPlatformApi.java:33-50 | every certificate converted in order, or an exception as soon as one conversion throws |
| TencentCloudPlatformApi.CertInfoListOf | src/main/java/cn/sleepybear/model/TencentCloudPlatformApi.java:19-53 | what `getCertInfoList` returns for the response: an exception passes through, a null response or a null or empty list gives [], otherwise the converted list |
| TencentCloudPlatformApi.ConvertAllPointwise | src/main/java/cn/sleepybear/model/TencentCloudPlatformApi.java:33-50 | the list converts exactly when every certificate does, element by element and in order |
| TencentCloudPlatformApi.CertInfoListCases | src/main/java/cn/sleepybear/model/TencentCloudPlatformApi.java:19-53 | a null response or a null list gives an empty list; an exception or one unconvertible certificate fails the whole call |
| TencentCloudPlatformApi.GetCertInfoList | src/main/java/cn/sleepybear/model/TencentCloudPlatformApi.java:19-53 | the loop's result is the mapping of what the signed DescribeCertificates request returned |
| TencentCloudPlatformApi.ConvertCertificates | src/main/java/cn/sleepybear/model/TencentCloudPlatformApi.java:33-50 | the loop yields one record per certificate in order, or fails as a whole at the first certificate that throws |
| TencentCloudPlatformApi.ConvertAllStep | src/main/java/cn/sleepybear/model/TencentCloudPlatformApi.java:33-50 | converting one more certificate appends its entry or fails |
| TencentCloudPlatformApi.ConvertAllStaysFailed | src/main/java/cn/sleepybear/model/TencentCloudPlatformApi.java:33-50 | once a prefix fails, the whole list fails |
| CloudPlatformActionBase.GetCertInfoList | src/main/java/cn/sleepybear/model/CloudPlatformActionBase.java:20-52 | a null key, a null or empty platform and a platform off the allow-list give []; a "tencent" key gives the Tencent listing, and [] when that throws |
| CloudPlatformActionBase.OnlyTencentIsValid | src/main/java/cn/sleepybear/model/CloudPlatformActionBase.java:14-18 | a platform is valid exactly when it is "tencent" |
| CloudPlatformActionBase.DispatchCases | src/main/java/cn/sleepybear/model/CloudPlatformActionBase.java:20-52 | a tencent key whose listing succeeds gets that listing; every other case gets an empty list |
| CloudPlatformActionBase.OtherPlatformsIgnoreListing | src/main/java/cn/sleepybear/model/CloudPlatformActionBase.java:25-32 | a key for another platform gets an empty list whatever the cloud would return |
| ApiKeyFile.KeyOfFields | src/main/java/cn/sleepybear/service/CertService.java:76-90 | three or more fields, trimmed: a key when the platform is allowed and the first three are non-empty, the fourth (or "") as account id; otherwise none |
| ApiKeyFile.ParseKeyLine | src/main/java/cn/sleepybear/service/CertService.java:68-90 | a trimmed line that is empty or starts with `#` gives no key; otherwise the key of its `@@` fields |
| ApiKeyFile.ParseKeyLines | src/main/java/cn/sleepybear/service/CertService.java:67-91 | the keys of the accepted lines, in file order |
| ApiKeyFile.LoadApiKeys | src/main/java/cn/sleepybear/service/CertService.java:55-98 | a missing file gives no keys; otherwise the loop keeps the key of every accepted line, in file order |
| ApiKeyFile.ParseKeyLinesAppend | src/main/java/cn/sleepybear/service/CertService.java:67-91 | lines are parsed independently: the keys of a concatenation are the concatenated keys |
| ApiKeyFile.KeptKeyIsValid | src/main/java/cn/sleepybear/service/CertService.java:75-86 | a kept key is for "tencent", with non-empty trimmed secrets and a trimmed account id |
| ApiKeyFile.KeptKeysAreValid | src/main/java/cn/sleepybear/service/CertService.java:67-91 | every loaded key is for "tencent", with non-empty trimmed secrets |
| ApiKeyFile.SkippedLine | src/main/java/cn/sleepybear/service/CertService.java:68-73 | a blank or `#` line adds no key |
| ApiKeyFile.KeyLineRoundTrip | src/main/java/cn/sleepybear/service/CertService.java:68-86 | the line written for a valid key parses back to that key |
| ApiKeyFile.SplitKeyLine | src/main/java/cn/sleepybear/service/CertService.java:75 | splitting the joined fields at "@@" gives the fields back |
| ApiKeyFile.KeyOfOwnFields | src/main/java/cn/sleepybear/service/CertService.java:76-86 | a valid key's own fields build the same key |
| ApiKeyFile.LineShape | src/main/java/cn/sleepybear/service/CertService.java:68 | a key line has no blank at either end, so trim keeps it whole |
| ApiKeyFile.OtherPlatformRefused | src/main/java/cn/sleepybear/service/CertService.java:82-89 | a line for another platform gives no key |
| ApiKeyFile.MissingKeyRefused | src/main/java/cn/sleepybear/service/CertService.java:75-76 | a line with an empty third field gives no key: `split` drops it and fewer than three fields remain |
| ApiKeyFile.CommentRefused | src/main/java/cn/sleepybear/service/CertService.java:71-73 | a line starting with `#` gives no key |
| LocalCertScanner.CandidateDomain | src/main/java/cn/sleepybear/service/CertService.java:164-170 | a `.crt` name yields the name less `_bundle.crt` or `.crt`; any other name yields nothing |
| LocalCertScanner.FirstKeyName | src/main/java/cn/sleepybear/service/CertService.java:178-181 | the first `.key` entry of the directory, and nothing exactly when it has none |
| LocalCertScanner.FirstKeyNameSkips | src/main/java/cn/sleepybear/service/CertService.java:178-181 | entries before the first `.key` are skipped |
| LocalCertScanner.PairFor | src/main/java/cn/sleepybear/service/CertService.java:158-182 | the domain and key file from the name, or from a directory named `domain` or `domain_nginx` with its first `.key` entry |
| LocalCertScanner.Found | src/main/java/cn/sleepybear/service/CertService.java:184-191 | a pairing with a domain and an existing key file whose certificate has a readable expiry |
| LocalCertScanner.AddFound | src/main/java/cn/sleepybear/service/CertService.java:157-192 | `processCertFile`: the found certificate is put under its domain; otherwise the map is unchanged |
| LocalCertScanner.ScanFiles | src/main/java/cn/sleepybear/service/CertService.java:132-140 | the visited files in order, processing only the names ending in `.crt` |
| LocalCertScanner.ScanRoots | src/main/java/cn/sleepybear/service/CertService.java:121-152 | the roots in order, skipping any that is not an existing directory |
| LocalCertScanner.ScannedCerts | src/main/java/cn/sleepybear/service/CertService.java:113-155 | `scanLocalCerts`: a null or empty root list gives the empty map; otherwise the scan of every root |
| LocalCertScanner.BundleNaming | src/main/java/cn/sleepybear/service/CertService.java:164-166 | `d_bundle.crt` next to `d.key` is domain d with that key, when its expiry reads |
| LocalCertScanner.PlainNaming | src/main/java/cn/sleepybear/service/CertService.java:167-169 | `d.crt` next to `d.key` is domain d with that key, when its expiry reads |
| LocalCertScanner.BundleName | src/main/java/cn/sleepybear/service/CertService.java:164 | `d.crt` ends in `_bundle.crt` exactly when d ends in `_bundle` |
| LocalCertScanner.NginxDirectoryFallback | src/main/java/cn/sleepybear/service/CertService.java:173-182 | in directory `d_nginx` without `d.key`, the domain is d and the key is the first `.key` entry |
| LocalCertScanner.SameNameDirectoryFallback | src/main/java/cn/sleepybear/service/CertService.java:173-182 | in directory `d` without `d.key`, the domain is d and the key is the first `.key` entry |
| LocalCertScanner.NoFallbackOutsideNamedDirectory | src/main/java/cn/sleepybear/service/CertService.java:173-174 | without `d.key` and outside a directory named after d, the certificate is dropped |
| LocalCertScanner.FullchainNotPaired | src/main/java/cn/sleepybear/service/CertService.java:173-174 | `fullchain.crt` with `privkey.key` in directory `example.com` is not paired |
| LocalCertScanner.FoundIsAccepted | src/main/java/cn/sleepybear/service/CertService.java:157-192 | a certificate is recorded exactly when it has a domain, an existing key and a readable expiry; the key is a `.key` file in the certificate's own directory |
| LocalCertScanner.ScanFilesAppend | src/main/java/cn/sleepybear/service/CertService.java:129-148 | scanning two file runs in turn is scanning both |
| LocalCertScanner.ScanFilesKeepsDomains | src/main/java/cn/sleepybear/service/CertService.java:129-148 | a scan never removes a domain |
| LocalCertScanner.ScanFilesLeavesOthers | src/main/java/cn/sleepybear/service/CertService.java:188 | a domain no scanned certificate resolves to keeps its entry |
| LocalCertScanner.LaterFileWins | src/main/java/cn/sleepybear/service/CertService.java:188 | the last certificate found for a domain is the one kept |
| LocalCertScanner.ScanEntriesFound | src/main/java/cn/sleepybear/service/CertService.java:129-148 | every entry after a scan was there before or was found from a scanned `.crt` file under its own domain |
| LocalCertScanner.ExistingDirs | src/main/java/cn/sleepybear/service/CertService.java:121-126 | only existing directories remain |
| LocalCertScanner.ScanRootsDirectoriesOnly | src/main/java/cn/sleepybear/service/CertService.java:121-126 | roots that are not directories are skipped and contribute nothing |
| LocalCertScanner.CertMap.constructor | src/main/java/cn/sleepybear/service/CertService.java:114 | the map starts empty |
| LocalCertScanner.CertMap.ProcessCertFile | src/main/java/cn/sleepybear/service/CertService.java:157-192 | the map gains the certificate's entry when it is found, and is otherwise unchanged |
| LocalCertScanner.ScanLocalCerts | src/main/java/cn/sleepybear/service/CertService.java:113-155 | a fresh map, holding what processing every walked file of every existing root yields; a null or empty root list gives an empty map |
| CertInventory.IndexByDomain | src/main/java/cn/sleepybear/service/CertService.java:196-197 | each entry is filed under its own domain, every domain is present, and every value is one of the entries |
| CertInventory.FirstEntryWins | src/main/java/cn/sleepybear/service/CertService.java:197 | on duplicate domains the first entry is kept |
| CertInventory.LocalObservations | src/main/java/cn/sleepybear/service/CertService.java:199-201 | one local patch per scanned domain, in iteration order |
| CertInventory.KeyObservations | src/main/java/cn/sleepybear/service/CertService.java:239-240 | one cloud patch per listed entry, with the key's account id |
| CertInventory.Apply | src/main/java/cn/sleepybear/service/CertService.java:203-247 | the setters a pass calls: the local pass sets domain, directory, file names and expiry; the cloud pass sets domain, certificate id, status, remark, expiry and account id |
| CertInventory.Observe | src/main/java/cn/sleepybear/service/CertService.java:203-219 | an indexed domain's entry is patched; a new domain gets a fresh patched entry with the next eight draws as id and `enable = false` |
| CertInventory.ObserveAll | src/main/java/cn/sleepybear/service/CertService.java:199-220 | the observations applied in order |
| CertInventory.CloudObservations | src/main/java/cn/sleepybear/service/CertService.java:235-257 | the keys in order, each with the entries its dispatch returned |
| CertInventory.ListsExactly | src/main/java/cn/sleepybear/service/CertService.java:222 | `new ArrayList<>(map.values())`: each indexed entry once, in some order |
| CertInventory.ObserveAllAppend | src/main/java/cn/sleepybear/service/CertService.java:199-220 | reconciling two runs of observations in turn is reconciling both |
| CertInventory.ObservedSnoc | src/main/java/cn/sleepybear/service/CertService.java:199-220 | the observed domains grow by the last observation's domain |
| CertInventory.ObserveAllDomains | src/main/java/cn/sleepybear/service/CertService.java:219 | the domains afterwards are the old ones plus every observed one |
| CertInventory.ObserveAllKeyed | src/main/java/cn/sleepybear/service/CertService.java:204 | every entry stays filed under its own domain |
| CertInventory.ObserveAllUnobserved | src/main/java/cn/sleepybear/service/CertService.java:199-220 | an unobserved domain keeps its entry unchanged |
| CertInventory.ObserveAllNoDraws | src/main/java/cn/sleepybear/service/CertService.java:213-217 | when no domain is new, no random id is drawn |
| CertInventory.LastPatch | src/main/java/cn/sleepybear/service/CertService.java:219 | the patch of a domain's last observation |
| CertInventory.ApplyOverwrites | src/main/java/cn/sleepybear/service/CertService.java:204-210 | a patch of the same kind overwrites everything an earlier one set |
| CertInventory.LastObservationWins | src/main/java/cn/sleepybear/service/CertService.java:199-220 | an observed domain ends as its old or fresh entry with only its last patch applied |
| CertInventory.ObserveAllIdempotent | src/main/java/cn/sleepybear/service/CertService.java:194-224 | running the same pass twice equals running it once |
| CertInventory.ObserveAllNewId | src/main/java/cn/sleepybear/service/CertService.java:213-215 | a new domain gets an 8-character alphanumeric id |
| CertInventory.ObserveAllDraws | src/main/java/cn/sleepybear/service/CertService.java:213-217 | the pass draws 8 random values per new domain, and no more |
| CertInventory.LocalLastPatch | src/main/java/cn/sleepybear/service/CertService.java:199-201 | a scanned domain's last patch is its scanned certificate |
| CertInventory.LocalPassEntry | src/main/java/cn/sleepybear/service/CertService.java:199-220 | an existing entry changes only its domain, directory, file names and expiry; a new one is a fresh entry with those set, a random id and `enable` false |
| CertInventory.LocalPassOthers | src/main/java/cn/sleepybear/service/CertService.java:194-224 | entries of domains not scanned are untouched |
| CertInventory.LocalPassDomains | src/main/java/cn/sleepybear/service/CertService.java:194-224 | the domains afterwards are the old ones plus the scanned ones |
| CertInventory.CloudObservationsAppend | src/main/java/cn/sleepybear/service/CertService.java:235-261 | the keys' listings are processed independently, in key order |
| CertInventory.FailedKeySkipped | src/main/java/cn/sleepybear/service/CertService.java:235-261 | a key whose listing fails contributes nothing |
| CertInventory.CloudObservationSource | src/main/java/cn/sleepybear/service/CertService.java:238-247 | each cloud patch is an entry some key's dispatch listed, carrying that key's account id |
| CertInventory.CloudSameKind | src/main/java/cn/sleepybear/service/CertService.java:239-257 | the cloud pass applies only cloud patches |
| CertInventory.CloudPassEntry | src/main/java/cn/sleepybear/service/CertService.java:239-257 | an observed domain takes the last listed entry's certificate id, status, remark and expiry plus the account id, and nothing else changes; a new one also gets a random id and `enable` false |
| CertInventory.ListValues | src/main/java/cn/sleepybear/service/CertService.java:222 | the new list holds each indexed entry exactly once |
| CertInventory.NothingDeleted | src/main/java/cn/sleepybear/service/CertService.java:222 | after a pass, every old and every observed domain is listed, and no domain twice |
| CertInventory.Inventory.constructor | src/main/java/cn/sleepybear/service/CertService.java:195 | the inventory starts from the given entries, with no draws and no saves |
| CertInventory.Inventory.UpdateConfigWithLocalCerts | src/main/java/cn/sleepybear/service/CertService.java:194-224 | the inventory lists exactly the index patched by every scanned certificate, and is saved once |
| CertInventory.Inventory.RecordLocalCerts | src/main/java/cn/sleepybear/service/CertService.java:199-220 | the index after the loop over the scanned certificates is their patches applied in iteration order, each new domain drawing an eight-character id; the stored list is not touched |
| CertInventory.Inventory.QueryCloudCerts | src/main/java/cn/sleepybear/service/CertService.java:226-265 | no keys: nothing changes and nothing is saved; otherwise the inventory lists the index patched by every key's listing, and is saved once |
| CertInventory.Inventory.RecordListing | src/main/java/cn/sleepybear/service/CertService.java:239-257 | the index after one key's entries is that key's patches applied in order |
| CommandLineArgs.CommandLineArgs.constructor | src/main/java/cn/sleepybear/config/CommandLineArgs.java:12-14 | the defaults: `config.json`, `key.txt`, port 30900 |
| CommandLineArgs.ParseFrom | src/main/java/cn/sleepybear/config/CommandLineArgs.java:19-36 | the scan from one position: a flag with a following value sets its field and consumes both; anything else is passed over |
| CommandLineArgs.ParseArgs | src/main/java/cn/sleepybear/config/CommandLineArgs.java:16-37 | the scan of all arguments from the defaults |
| CommandLineArgs.ParseArguments | src/main/java/cn/sleepybear/config/CommandLineArgs.java:16-37 | the loop's settings are those of the left-to-right scan; for each of `-c`, `-k` and `-p` the last occurrence with a value wins (LastConfigFlagWins, LastKeyFlagWins, LastPortFlagWins) and the defaults stand without one |
| CommandLineArgs.NoFlagsKeepDefaults | src/main/java/cn/sleepybear/config/CommandLineArgs.java:19-37 | arguments without a flag leave the settings unchanged |
| CommandLineArgs.ParseAppend | src/main/java/cn/sleepybear/config/CommandLineArgs.java:19-37 | a run not ending in a flag parses independently of what follows |
| CommandLineArgs.ScanFromJoin | src/main/java/cn/sleepybear/config/CommandLineArgs.java:19-37 | a scan starting after the first run sees only the second one |
| CommandLineArgs.ShiftedScan | src/main/java/cn/sleepybear/config/CommandLineArgs.java:19-37 | a scan of the second run does not depend on what precedes it |
| CommandLineArgs.NoConfigFlag | src/main/java/cn/sleepybear/config/CommandLineArgs.java:22-24 | without `-c` the configuration path stays as it was |
| CommandLineArgs.LastConfigFlagWins | src/main/java/cn/sleepybear/config/CommandLineArgs.java:22-24 | the last `-c` value is the configuration path |
| CommandLineArgs.NoKeyFlag | src/main/java/cn/sleepybear/config/CommandLineArgs.java:33-36 | without `-k` the key file path stays as it was |
| CommandLineArgs.LastKeyFlagWins | src/main/java/cn/sleepybear/config/CommandLineArgs.java:33-36 | the last `-k` value is the key file path |
| CommandLineArgs.NoPortFlag | src/main/java/cn/sleepybear/config/CommandLineArgs.java:25-32 | without `-p` the port stays as it was |
| CommandLineArgs.LastPortFlagWins | src/main/java/cn/sleepybear/config/CommandLineArgs.java:25-32 | the last `-p` with a valid int, negative ones included, sets the port |
| CommandLineArgs.DanglingFlagIgnored | src/main/java/cn/sleepybear/config/CommandLineArgs.java:22-36 | a flag with no value after it is ignored |
| CommandLineArgs.BadPortConsumed | src/main/java/cn/sleepybear/config/CommandLineArgs.java:25-32 | a `-p` value that does not parse is consumed and keeps the port |
| CommandLineArgs.PortNotRangeChecked | src/main/java/cn/sleepybear/config/CommandLineArgs.java:27-28 | every Java int is accepted as the port: negative values, 0 and values above 65535 alike |
| CommandLineArgs.LastSlash | src/main/java/cn/sleepybear/config/CommandLineArgs.java:40 | the position of the last '/', and nothing exactly when there is none |
| CommandLineArgs.ParseAsWritten | src/main/java/cn/sleepybear/config/CommandLineArgs.java:16-48 | when parsing returns, it returns the scanned settings and has created their directory |
| CommandLineArgs.BareConfigNameThrows | src/main/java/cn/sleepybear/config/CommandLineArgs.java:40-45 | a configuration path without '/' throws an NPE (Java's null-reference exception) |
| CommandLineArgs.DefaultArgumentsThrow | src/main/java/cn/sleepybear/config/CommandLineArgs.java:40-45 | with no arguments, parsing throws |
| CommandLineArgs.ParentPath | src/main/java/cn/sleepybear/config/CommandLineArgs.java:40 | `getParentFile()`: the text before the last '/', the root for a file directly under it, null without a '/' |
| CommandLineArgs.Parse | src/main/java/cn/sleepybear/config/CommandLineArgs.java:39-47 | the corrected parse: the scanned settings, with the directory created only when there is one |
| CommandLineArgs.ParseNeverThrows | src/main/java/cn/sleepybear/config/CommandLineArgs.java:39-47 | the corrected parse always returns the scanned settings, creates a directory exactly when there is a parent, and agrees with the code whenever the code returns |
| CommandLineArgs.ConfigDirectoryCreated | src/main/java/cn/sleepybear/config/CommandLineArgs.java:40-42 | `-c dir/name` creates `dir` |

## Left out

- HTTP transport, Gson (de)serialisation and the `Response` unwrapping are not modelled. A listing is a `transport` result, and the JSON of an empty query is a constant text.
- The SHA-256 and HMAC-SHA256 algorithms are not modelled. They are opaque functions of a `Crypto` value.
- Reading files, the X.509 `CertificateFactory` and `File.exists` on paths outside a listed directory are not modelled. The content, the decoder and the directory map are given.
- `Files.walkFileTree` is not modelled. Its depth limit and visiting order are the given `walk` function, and visit failures are skipped by it.
- `SimpleDateFormat.parse` of `yyyy-MM-dd HH:mm:ss` in the JVM's default time zone is not modelled. It is the given `parse` function.
- The UTC date rendering covers instants from 1970 on, because the clock reading is a `nat`.
- `Integer.parseInt` and `Long.parseLong` accept ASCII digits only; Java also accepts other Unicode digits.
- `toLowerCase` is modelled for ASCII letters only. It is only applied to hex text.
- A lone (unpaired) surrogate, which `getBytes(UTF_8)` encodes as `?`, cannot occur: a Dafny `char` is a Unicode scalar value. A supplementary character is one `char` encoded in four bytes, as Java encodes its surrogate pair.
- Java's `String.valueOf` of a negative long is not needed: the clock is non-negative.
- `HashMap` iteration order of the scan map is the `order` argument. The order of `values()` in the saved list is left unspecified: `ListsExactly` fixes the contents, not the order.
- The background thread in `startLoop`, the concurrent shared `apiKeys` list, `LogUtil`, and loading and saving `AppConfig` are not modelled. Saving is counted in `saves`.
- `loadApiKeys()` reading the configured path is not modelled. The file is a `KeyFileRead`, and an `IOException` mid-file behaves as the prefix of lines read.
- CertInventory.Inventory.QueryCloudCerts: the per-key `catch (Exception)` is never reached, because `CloudPlatformActionBase.getCertInfoList` already turns every failure into an empty list. A failure part-way through a key's entries is not modelled.
- The cloud pass abstracts each key's listing as `listing(key)`, one call per key.
- `describeDownloadCertificateUrl`, `downloadFile`, `testList`, `testDownload` and the `main` methods are not modelled: they are not part of the reconciling service.
- `isPortInUse` and `SimpleHttpServer` are not modelled.
- CommandLineArgs.ParentPath treats the configuration path as a normalised Unix path: `getParentFile` of a path whose only '/' is the leading one is "/".
- `PlatformSslCertInfo` as shipped declares neither `createTimeAt`, `certStatusName`, `ignore`, `localParentFoldPath`, `keyFilename`, `crtFilename` nor `enable`, yet the core calls their setters. The model gives the entry those fields. The file fields and `enable` are taken as in `SslCertConfig`. A fresh entry's `enable` is left null, because `new PlatformSslCertInfo()` declares no default for it.
- `fullchain.crt` with `privkey.key` in a directory `example.com` is dropped, because the directory fallback needs the directory to be named `fullchain` or `fullchain_nginx` (CertService.java:173-174); see `LocalCertScanner.FullchainNotPaired`.

## Findings

| source | as written | input that shows it | evidently intended | confidence | as-written member | corrected member |
|---|---|---|---|---|---|---|
| src/main/java/cn/sleepybear/config/CommandLineArgs.java:40-45 | `new File(configPath).getParentFile()` is null for a path without a directory part, and `.toPath()` on it throws an NPE (Java's null-reference exception) that `catch (IOException)` does not catch | no arguments at all (the default `config.json`), or `-c config.json` | create the configuration directory only when the path has one, and return the parsed settings | not executed | CommandLineArgs.DefaultArgumentsThrow | CommandLineArgs.ParseNeverThrows |
