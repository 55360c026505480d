/** `TencentCloudPlatformApi`: turning the DescribeCertificates answer into
    inventory records. The network exchange is a given `transport` from the
    signed request to what the call produced, and the "yyyy-MM-dd HH:mm:ss"
    parser of the JVM's default time zone is a given partial function. */
module TencentCloudPlatformApi {
  import opened JavaText
  import opened Records
  import TencentCloudApi

  /** One element of the `Certificates` array of the response. */
  datatype Certificate = Certificate(
    ownerUin: Option<string>,
    domain: Option<string>,
    certificateId: Option<string>,
    from: Option<string>,
    alias: Option<string>,
    status: Option<string>,
    statusName: Option<string>,
    statusMsg: Option<string>,
    verifyType: Option<string>,
    certBeginTime: Option<string>,
    certEndTime: Option<string>,
    insertTime: Option<string>,
    validityPeriod: Option<Int32>,
    isIgnore: Option<bool>)

  datatype ErrorRes = ErrorRes(code: Option<string>, message: Option<string>)

  datatype DescribeCertificatesResponse = DescribeCertificatesResponse(
    requestId: Option<string>,
    error: Option<ErrorRes>,
    certificates: Option<seq<Certificate>>,
    totalCount: Option<Int32>)

  /** What `describeCertificates` produced: an exception (network, signing,
      JSON), or a response that may be null. */
  datatype Fetch = Thrown | Returned(response: Option<DescribeCertificatesResponse>)

  /** What `getCertInfoList` produced: an exception, or the list. */
  datatype Outcome = Failed | Listed(infos: seq<PlatformSslCertInfo>)

  /** The JSON of a `QueryParams` with no fields set. */
  const EmptyQuery: string := "{}"

  /** `dateFormat.parse(text).getTime()`: a null text throws, any other text
      goes to the given parser (`None` for a `ParseException`). */
  function ParseTime(parse: string -> Option<int>, text: Option<string>): (r: Option<int>)
    ensures r.Some? ==> text.Some? && r == parse(text.value)
    ensures text.Some? ==> r == parse(text.value)
  {
    match text
    case None => None
    case Some(t) => parse(t)
  }

  /** The record built for one certificate, or `None` where building it
      throws: a null or unparsable date, or a null validity period
      (unboxing). */
  function ConvertCertificate(cert: Certificate, accountId: string, parse: string -> Option<int>)
    : Option<PlatformSslCertInfo>
  {
    var startTimeAt := ParseTime(parse, cert.certBeginTime);
    var createTimeAt := ParseTime(parse, cert.insertTime);
    var expireTimeAt := ParseTime(parse, cert.certEndTime);
    if startTimeAt.None? || createTimeAt.None? || expireTimeAt.None? || cert.validityPeriod.None? then None
    else
      Some(NewInfo().(
        id := cert.certificateId,
        cloudPlatform := Some("tencent"),
        domain := cert.domain,
        startTimeAt := startTimeAt,
        createTimeAt := createTimeAt,
        expireTimeAt := expireTimeAt,
        validDays := Some(Wrap32(cert.validityPeriod.value * 30)),
        certId := cert.certificateId,
        certStatus := cert.status,
        certStatusName := cert.statusName,
        certRemark := cert.alias,
        accountId := Some(accountId),
        ignore := cert.isIgnore))
  }

  /** Where each field of a converted record comes from, and when the
      conversion fails. */
  lemma ConvertedFields(cert: Certificate, accountId: string, parse: string -> Option<int>)
    ensures ConvertCertificate(cert, accountId, parse).Some? <==>
              cert.certBeginTime.Some? && parse(cert.certBeginTime.value).Some? &&
              cert.insertTime.Some? && parse(cert.insertTime.value).Some? &&
              cert.certEndTime.Some? && parse(cert.certEndTime.value).Some? &&
              cert.validityPeriod.Some?
    ensures var r := ConvertCertificate(cert, accountId, parse);
            r.Some? ==>
              r.value.id == cert.certificateId && r.value.certId == cert.certificateId &&
              r.value.cloudPlatform == Some("tencent") && r.value.domain == cert.domain &&
              r.value.startTimeAt == parse(cert.certBeginTime.value) &&
              r.value.createTimeAt == parse(cert.insertTime.value) &&
              r.value.expireTimeAt == parse(cert.certEndTime.value) &&
              r.value.certStatus == cert.status && r.value.certStatusName == cert.statusName &&
              r.value.certRemark == cert.alias && r.value.ignore == cert.isIgnore &&
              r.value.accountId == Some(accountId) &&
              r.value.localParentFoldPath == None && r.value.keyFilename == None &&
              r.value.crtFilename == None && r.value.enable == None
  {
  }

  /** `validDays` is the validity period in months times 30, computed in
      32-bit `int` arithmetic: exact for every period that can occur, and
      wrapping past 71582788 months. */
  lemma ValidDaysIsThirtyPerMonth(cert: Certificate, accountId: string, parse: string -> Option<int>)
    requires ConvertCertificate(cert, accountId, parse).Some?
    ensures var v := cert.validityPeriod.value;
            var days := ConvertCertificate(cert, accountId, parse).value.validDays.value;
            (MinInt32 <= v * 30 <= MaxInt32 ==> days == v * 30) &&
            (days - v * 30) % 0x1_0000_0000 == 0
  {
  }

  lemma ValidDaysWraps()
    ensures Wrap32(71582789 * 30) == 71582789 * 30 - 0x1_0000_0000
  {
  }

  /** All certificates converted in order, or `None` as soon as one throws. */
  function ConvertAll(certs: seq<Certificate>, accountId: string, parse: string -> Option<int>)
    : Option<seq<PlatformSslCertInfo>>
  {
    if certs == [] then Some([])
    else
      match ConvertAll(certs[..|certs| - 1], accountId, parse)
      case None => None
      case Some(infos) =>
        match ConvertCertificate(certs[|certs| - 1], accountId, parse)
        case None => None
        case Some(info) => Some(infos + [info])
  }

  /** One record per certificate, in the same order, each the conversion of
      its certificate; and a failure exactly when some certificate fails. */
  lemma {:induction false} ConvertAllPointwise(certs: seq<Certificate>, accountId: string,
                                               parse: string -> Option<int>)
    ensures ConvertAll(certs, accountId, parse).Some? <==>
              forall i :: 0 <= i < |certs| ==> ConvertCertificate(certs[i], accountId, parse).Some?
    ensures ConvertAll(certs, accountId, parse).Some? ==>
              |ConvertAll(certs, accountId, parse).value| == |certs| &&
              forall i :: 0 <= i < |certs| ==>
                ConvertAll(certs, accountId, parse).value[i] == ConvertCertificate(certs[i], accountId, parse).value
  {
    if certs != [] {
      var init := certs[..|certs| - 1];
      ConvertAllPointwise(init, accountId, parse);
      assert forall i :: 0 <= i < |init| ==> init[i] == certs[i];
    }
  }

  /** What `getCertInfoList` returns for what `describeCertificates` produced. */
  function CertInfoListOf(fetched: Fetch, accountId: string, parse: string -> Option<int>): Outcome {
    match fetched
    case Thrown => Failed
    case Returned(None) => Listed([])
    case Returned(Some(response)) =>
      if response.certificates.None? || response.certificates.value == [] then Listed([])
      else
        match ConvertAll(response.certificates.value, accountId, parse)
        case None => Failed
        case Some(infos) => Listed(infos)
  }

  /** A null response, or a null or empty certificate list, gives an empty
      list; an exception from the call, or from building any one record,
      fails the whole call with no partial list. */
  lemma CertInfoListCases(fetched: Fetch, accountId: string, parse: string -> Option<int>)
    ensures fetched == Returned(None) ==> CertInfoListOf(fetched, accountId, parse) == Listed([])
    ensures fetched.Returned? && fetched.response.Some? && fetched.response.value.certificates.None?
            ==> CertInfoListOf(fetched, accountId, parse) == Listed([])
    ensures fetched == Thrown ==> CertInfoListOf(fetched, accountId, parse) == Failed
    ensures fetched.Returned? && fetched.response.Some? && fetched.response.value.certificates.Some?
            ==> var certs := fetched.response.value.certificates.value;
                (CertInfoListOf(fetched, accountId, parse).Failed? <==>
                   exists i :: 0 <= i < |certs| && ConvertCertificate(certs[i], accountId, parse).None?)
  {
    if fetched.Returned? && fetched.response.Some? && fetched.response.value.certificates.Some? {
      ConvertAllPointwise(fetched.response.value.certificates.value, accountId, parse);
    }
  }

  /** `getCertInfoList(apiKey)`: a signed DescribeCertificates request with an
      empty query, sent at `nowMillis`; then one record per certificate, built
      in a loop that stops at the first exception. */
  method GetCertInfoList(c: TencentCloudApi.Crypto, apiKey: CloudApiKey, nowMillis: nat,
                         transport: TencentCloudApi.Request -> Fetch, parse: string -> Option<int>)
    returns (r: Outcome)
    requires nowMillis <= MaxInt64
    ensures r == CertInfoListOf(
                   transport(TencentCloudApi.SignedRequest(c, TencentCloudApi.ActionDescribeCertificates,
                     EmptyQuery, apiKey.secretId, apiKey.secretKey, nowMillis)),
                   apiKey.accountId, parse)
  {
    var request := TencentCloudApi.PrepareRequest(c, TencentCloudApi.ActionDescribeCertificates, EmptyQuery,
                                                  apiKey.secretId, apiKey.secretKey, nowMillis);
    var fetched := transport(request);
    if fetched.Thrown? {
      return Failed;
    }
    var list: seq<PlatformSslCertInfo> := [];
    if fetched.response.None? {
      return Listed(list);
    }
    var certificates := fetched.response.value.certificates;
    if certificates.None? || |certificates.value| == 0 {
      return Listed(list);
    }
    var converted := ConvertCertificates(certificates.value, apiKey.accountId, parse);
    r := if converted.None? then Failed else Listed(converted.value);
  }

  /** The loop of `getCertInfoList`: one record per certificate, in order,
      stopping at the first one that throws. */
  method ConvertCertificates(certs: seq<Certificate>, accountId: string, parse: string -> Option<int>)
    returns (r: Option<seq<PlatformSslCertInfo>>)
    ensures r == ConvertAll(certs, accountId, parse)
  {
    var list: seq<PlatformSslCertInfo> := [];
    var i := 0;
    while i < |certs|
      invariant 0 <= i <= |certs|
      invariant ConvertAll(certs[..i], accountId, parse) == Some(list)
    {
      var certificate := certs[i];
      var config := ConvertCertificate(certificate, accountId, parse);
      ConvertAllStep(certs, i, accountId, parse);
      if config.None? {
        ConvertAllStaysFailed(certs, i + 1, accountId, parse);
        return None;
      }
      list := list + [config.value];
      i := i + 1;
    }
    assert certs[..i] == certs;
    r := Some(list);
  }

  lemma ConvertAllStep(certs: seq<Certificate>, i: nat, accountId: string, parse: string -> Option<int>)
    requires i < |certs|
    ensures ConvertAll(certs[..i + 1], accountId, parse)
            == if ConvertAll(certs[..i], accountId, parse).None? then None
               else if ConvertCertificate(certs[i], accountId, parse).None? then None
               else Some(ConvertAll(certs[..i], accountId, parse).value
                         + [ConvertCertificate(certs[i], accountId, parse).value])
  {
    assert certs[..i + 1][..i] == certs[..i];
  }

  /** Once a prefix fails, the whole list fails. */
  lemma {:induction false} ConvertAllStaysFailed(certs: seq<Certificate>, n: nat, accountId: string,
                                                 parse: string -> Option<int>)
    requires n <= |certs| && ConvertAll(certs[..n], accountId, parse) == None
    ensures ConvertAll(certs, accountId, parse) == None
    decreases |certs| - n
  {
    if n < |certs| {
      assert certs[..n + 1][..n] == certs[..n];
      ConvertAllStaysFailed(certs, n + 1, accountId, parse);
    } else {
      assert certs[..n] == certs;
    }
  }
}
