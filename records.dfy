/** The records the certificate service passes around: API credentials, a
    certificate/key pair found on disk, and the per-domain inventory entry
    that is persisted in the configuration file. Java references that may be
    null are `Option`s. */
module Records {
  import opened JavaText

  /** One credential line of the key file. */
  datatype CloudApiKey = CloudApiKey(cloudPlatform: Option<string>, secretId: string,
                                     secretKey: string, accountId: string)

  /** A directory: its absolute path and its own name (the last path element). */
  datatype DirRef = DirRef(path: string, name: string)

  /** A file: the directory holding it and its name within that directory. */
  datatype FileRef = FileRef(dir: DirRef, name: string)

  /** A certificate file paired with its private key and the certificate's
      expiry, in epoch milliseconds. */
  datatype CertInfo = CertInfo(keyFile: FileRef, crtFile: FileRef, expireTimeAt: int, domain: string)

  /** One inventory entry. The fields are those the service writes: the ones
      declared for the entry, the local file locations and `enable` of the
      persisted configuration, and the creation time, status name and ignore
      flag the Tencent mapping sets. */
  datatype PlatformSslCertInfo = PlatformSslCertInfo(
    id: Option<string>,
    cloudPlatform: Option<string>,
    accountId: Option<string>,
    domain: Option<string>,
    startTimeAt: Option<int>,
    createTimeAt: Option<int>,
    expireTimeAt: Option<int>,
    validDays: Option<Int32>,
    certId: Option<string>,
    certStatus: Option<string>,
    certStatusName: Option<string>,
    certRemark: Option<string>,
    ignore: Option<bool>,
    localParentFoldPath: Option<string>,
    keyFilename: Option<string>,
    crtFilename: Option<string>,
    enable: Option<bool>)

  /** `new PlatformSslCertInfo()`: every reference null, `validDays` 90. */
  function NewInfo(): (r: PlatformSslCertInfo)
    ensures r.validDays == Some(90) && r.id == None && r.domain == None && r.enable == None
  {
    PlatformSslCertInfo(None, None, None, None, None, None, None, Some(90), None, None, None,
                        None, None, None, None, None, None)
  }
}
