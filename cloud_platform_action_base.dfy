/** `CloudPlatformActionBase`: the allow-list of cloud platforms and the
    dispatch from an API key to that platform's certificate listing. */
module CloudPlatformActionBase {
  import opened JavaText
  import opened Records
  import TencentCloudPlatformApi

  /** `VALID_PLATFORMS`. */
  const ValidPlatformSet: set<string> := {"tencent"}

  /** `validPlatforms(platform)` for a non-null platform. */
  predicate ValidPlatforms(platform: string) {
    platform in ValidPlatformSet
  }

  lemma OnlyTencentIsValid(platform: string)
    ensures ValidPlatforms(platform) <==> platform == "tencent"
  {
  }

  /** `getCertInfoList(apiKey)`. `tencent` is what the Tencent listing
      produced for this key; it is consulted only for a key whose platform
      passes the allow-list. Every failure, including an exception from the
      listing, gives the empty list. */
  function GetCertInfoList(apiKey: Option<CloudApiKey>, tencent: TencentCloudPlatformApi.Outcome)
    : seq<PlatformSslCertInfo>
  {
    if apiKey.None? then []
    else
      var platform := apiKey.value.cloudPlatform;
      if platform.None? || |platform.value| == 0 then []
      else if !ValidPlatforms(platform.value) then []
      else if platform.value == "tencent" then
        match tencent
        case Failed => []
        case Listed(infos) => infos
      else []
  }

  /** The list is the Tencent listing exactly when the key names "tencent"
      and the listing succeeded; in every other case (no key, no or empty
      platform, a platform off the list, an exception) it is empty. */
  lemma DispatchCases(apiKey: Option<CloudApiKey>, tencent: TencentCloudPlatformApi.Outcome)
    ensures apiKey.Some? && apiKey.value.cloudPlatform == Some("tencent") && tencent.Listed?
            ==> GetCertInfoList(apiKey, tencent) == tencent.infos
    ensures !(apiKey.Some? && apiKey.value.cloudPlatform == Some("tencent") && tencent.Listed?)
            ==> GetCertInfoList(apiKey, tencent) == []
  {
    if apiKey.Some? && apiKey.value.cloudPlatform.Some? {
      OnlyTencentIsValid(apiKey.value.cloudPlatform.value);
    }
  }

  /** Platforms other than "tencent", "aliyun" among them, never reach a
      platform API: the listing given is ignored. */
  lemma OtherPlatformsIgnoreListing(key: CloudApiKey, t1: TencentCloudPlatformApi.Outcome,
                                    t2: TencentCloudPlatformApi.Outcome)
    requires key.cloudPlatform != Some("tencent")
    ensures GetCertInfoList(Some(key), t1) == GetCertInfoList(Some(key), t2) == []
  {
    if key.cloudPlatform.Some? {
      OnlyTencentIsValid(key.cloudPlatform.value);
    }
  }
}
