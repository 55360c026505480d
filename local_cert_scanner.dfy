/** The local half of `CertService`: `scanLocalCerts` walks the configured
    roots and `processCertFile` pairs each certificate file with its private
    key. The file system is given as a listing of directories; the walk of a
    root (`Files.walkFileTree` with its depth limit) is given as the regular
    files it visits, in order; reading a file and decoding its certificate
    are given as in `CertUtils`. */
module LocalCertScanner {
  import opened JavaText
  import opened Records
  import CertUtils

  /** Each existing directory's path, mapped to the names of its entries in
      the order `File.listFiles` returns them. */
  datatype FileSystem = FileSystem(dirs: map<string, seq<string>>)

  /** `File.exists()` for an entry of a directory. */
  predicate Exists(fs: FileSystem, f: FileRef) {
    f.dir.path in fs.dirs && f.name in fs.dirs[f.dir.path]
  }

  const BundleSuffix: string := "_bundle.crt"
  const CrtSuffix: string := ".crt"
  const KeySuffix: string := ".key"
  const NginxSuffix: string := "_nginx"

  /** A Java string reference as string concatenation renders it. */
  function ConcatText(s: Option<string>): string {
    if s.Some? then s.value else "null"
  }

  /** The domain a certificate's file name names: `D_bundle.crt` and, failing
      that, `D.crt` give `D`; any other name gives none. */
  function CandidateDomain(fileName: string): (r: Option<string>)
    ensures r.Some? ==> r.value + CrtSuffix == fileName || r.value + BundleSuffix == fileName
    ensures r.None? <==> !EndsWith(fileName, CrtSuffix)
  {
    if EndsWith(fileName, BundleSuffix) then
      assert fileName == fileName[..|fileName| - |BundleSuffix|] + BundleSuffix;
      assert fileName[|fileName| - |CrtSuffix|..] == fileName[|fileName| - |BundleSuffix|..][7..];
      Some(fileName[..|fileName| - |BundleSuffix|])
    else if EndsWith(fileName, CrtSuffix) then
      assert fileName == fileName[..|fileName| - |CrtSuffix|] + CrtSuffix;
      Some(fileName[..|fileName| - |CrtSuffix|])
    else None
  }

  /** The first entry, in listing order, whose name ends with ".key". */
  function FirstKeyName(entries: seq<string>): (r: Option<string>)
    ensures r.Some? ==> r.value in entries && EndsWith(r.value, KeySuffix)
    ensures r.None? <==> forall i :: 0 <= i < |entries| ==> !EndsWith(entries[i], KeySuffix)
  {
    if entries == [] then None
    else if EndsWith(entries[0], KeySuffix) then Some(entries[0])
    else
      var r := FirstKeyName(entries[1..]);
      assert forall i :: 1 <= i < |entries| ==> entries[i] == entries[1..][i - 1];
      r
  }

  /** Entries that do not end with ".key" ahead of one that does are passed
      over: the one that does is chosen. */
  lemma {:induction false} FirstKeyNameSkips(skipped: seq<string>, key: string, rest: seq<string>)
    requires forall i :: 0 <= i < |skipped| ==> !EndsWith(skipped[i], KeySuffix)
    requires EndsWith(key, KeySuffix)
    ensures FirstKeyName(skipped + [key] + rest) == Some(key)
  {
    var entries := skipped + [key] + rest;
    if skipped != [] {
      FirstKeyNameSkips(skipped[1..], key, rest);
      assert entries[1..] == skipped[1..] + [key] + rest;
    }
  }

  /** `parentDirName.equals(domain) || parentDirName.equals(domain + "_nginx")`. */
  predicate NamedAfter(parentDirName: string, domain: Option<string>) {
    (domain.Some? && parentDirName == domain.value) || parentDirName == ConcatText(domain) + NginxSuffix
  }

  /** The domain and key file `processCertFile` settles on for a certificate
      file, before it decides whether to keep the pair. */
  datatype Pairing = Pairing(domain: Option<string>, keyFile: Option<FileRef>)

  function PairFor(crtFile: FileRef, fs: FileSystem): Pairing {
    var candidate := CandidateDomain(crtFile.name);
    var keyFile := if candidate.Some? then Some(FileRef(crtFile.dir, candidate.value + KeySuffix)) else None;
    if (candidate.None? || !Exists(fs, keyFile.value)) && NamedAfter(crtFile.dir.name, candidate) then
      var listed := if crtFile.dir.path in fs.dirs then FirstKeyName(fs.dirs[crtFile.dir.path]) else None;
      Pairing(Some(Replace(crtFile.dir.name, NginxSuffix, "")),
              if listed.Some? then Some(FileRef(crtFile.dir, listed.value)) else keyFile)
    else Pairing(candidate, keyFile)
  }

  /** What `processCertFile` records for a certificate file: the pairing,
      when it has a domain and a key file that exists and the certificate's
      expiry could be read. */
  function Found(crtFile: FileRef, fs: FileSystem, content: FileRef -> Option<string>,
                 decode: string -> Option<int>): Option<CertInfo>
  {
    var p := PairFor(crtFile, fs);
    if p.domain.Some? && p.keyFile.Some? && Exists(fs, p.keyFile.value) then
      var expireTime := CertUtils.GetCertificateExpireTime(content(crtFile), decode);
      if expireTime.Some? then Some(CertInfo(p.keyFile.value, crtFile, expireTime.value, p.domain.value))
      else None
    else None
  }

  /** The scan map after `processCertFile` for one file. */
  function AddFound(certMap: map<string, CertInfo>, crtFile: FileRef, fs: FileSystem,
                    content: FileRef -> Option<string>, decode: string -> Option<int>)
    : map<string, CertInfo>
  {
    match Found(crtFile, fs, content, decode)
    case None => certMap
    case Some(info) => certMap[info.domain := info]
  }

  /** The scan map after visiting `files` in order, starting from `certMap`:
      only files whose names end with ".crt" are processed. */
  function ScanFiles(certMap: map<string, CertInfo>, files: seq<FileRef>, fs: FileSystem,
                     content: FileRef -> Option<string>, decode: string -> Option<int>)
    : map<string, CertInfo>
  {
    if files == [] then certMap
    else
      var before := ScanFiles(certMap, files[..|files| - 1], fs, content, decode);
      var file := files[|files| - 1];
      if EndsWith(file.name, CrtSuffix) then AddFound(before, file, fs, content, decode) else before
  }

  /** The scan map after the roots in order; a root that is not an existing
      directory is skipped. `walk(root, maxDepth)` is the files visited. */
  function ScanRoots(roots: seq<string>, maxDepth: int, fs: FileSystem,
                     walk: (string, int) -> seq<FileRef>,
                     content: FileRef -> Option<string>, decode: string -> Option<int>)
    : map<string, CertInfo>
  {
    if roots == [] then map[]
    else
      var before := ScanRoots(roots[..|roots| - 1], maxDepth, fs, walk, content, decode);
      var path := roots[|roots| - 1];
      if path in fs.dirs then ScanFiles(before, walk(path, maxDepth), fs, content, decode) else before
  }

  /** `scanLocalCerts(sslCertPathList, sslCertPathMaxDepth)`. */
  function ScannedCerts(roots: Option<seq<string>>, maxDepth: int, fs: FileSystem,
                              walk: (string, int) -> seq<FileRef>,
                              content: FileRef -> Option<string>, decode: string -> Option<int>)
    : map<string, CertInfo>
  {
    if roots.None? || |roots.value| == 0 then map[]
    else ScanRoots(roots.value, maxDepth, fs, walk, content, decode)
  }

  // Pairing a certificate with its key.

  /** `D_bundle.crt` next to `D.key` is paired with that key under domain
      `D`, whatever the directory is called; the entry is made exactly when
      the expiry can be read. */
  lemma BundleNaming(d: string, dir: DirRef, fs: FileSystem, content: FileRef -> Option<string>,
                     decode: string -> Option<int>)
    requires Exists(fs, FileRef(dir, d + KeySuffix))
    ensures var crtFile := FileRef(dir, d + BundleSuffix);
            var expireTime := CertUtils.GetCertificateExpireTime(content(crtFile), decode);
            Found(crtFile, fs, content, decode)
            == if expireTime.Some? then Some(CertInfo(FileRef(dir, d + KeySuffix), crtFile, expireTime.value, d))
               else None
  {
    var name := d + BundleSuffix;
    assert EndsWith(name, BundleSuffix) by {
      assert name[|name| - |BundleSuffix|..] == BundleSuffix;
    }
    assert name[..|name| - |BundleSuffix|] == d;
  }

  /** `D.crt`, for a `D` not ending with "_bundle", next to `D.key` is
      paired with that key under domain `D`. */
  lemma PlainNaming(d: string, dir: DirRef, fs: FileSystem, content: FileRef -> Option<string>,
                    decode: string -> Option<int>)
    requires !EndsWith(d, "_bundle")
    requires Exists(fs, FileRef(dir, d + KeySuffix))
    ensures var crtFile := FileRef(dir, d + CrtSuffix);
            var expireTime := CertUtils.GetCertificateExpireTime(content(crtFile), decode);
            Found(crtFile, fs, content, decode)
            == if expireTime.Some? then Some(CertInfo(FileRef(dir, d + KeySuffix), crtFile, expireTime.value, d))
               else None
  {
    var name := d + CrtSuffix;
    assert EndsWith(name, CrtSuffix) by {
      assert name[|name| - |CrtSuffix|..] == CrtSuffix;
    }
    assert name[..|name| - |CrtSuffix|] == d;
    BundleName(d);
  }

  lemma BundleName(d: string)
    ensures EndsWith(d + CrtSuffix, BundleSuffix) <==> EndsWith(d, "_bundle")
  {
    var name := d + CrtSuffix;
    if |d| >= 7 {
      var tail := d[|d| - 7..];
      assert name[|name| - |BundleSuffix|..] == tail + CrtSuffix;
      assert BundleSuffix == "_bundle" + CrtSuffix;
      assert (tail + CrtSuffix)[..7] == tail;
    }
  }

  /** The directory fallback for a directory named `D_nginx`: when `D.key`
      is missing, the domain is `D` and the key is the first ".key" entry of
      the directory. */
  lemma NginxDirectoryFallback(d: string, dir: DirRef, crtName: string, fs: FileSystem,
                               skipped: seq<string>, key: string, rest: seq<string>)
    requires dir.name == d + NginxSuffix && !Contains(d, NginxSuffix)
    requires CandidateDomain(crtName) == Some(d)
    requires !Exists(fs, FileRef(dir, d + KeySuffix))
    requires dir.path in fs.dirs && fs.dirs[dir.path] == skipped + [key] + rest
    requires forall i :: 0 <= i < |skipped| ==> !EndsWith(skipped[i], KeySuffix)
    requires EndsWith(key, KeySuffix)
    ensures PairFor(FileRef(dir, crtName), fs) == Pairing(Some(d), Some(FileRef(dir, key)))
  {
    assert NginxSuffix[0] !in NginxSuffix[1..];
    ReplaceStripsSuffix(d, NginxSuffix);
    FirstKeyNameSkips(skipped, key, rest);
  }

  /** The directory fallback for a directory named `D` itself. */
  lemma SameNameDirectoryFallback(d: string, dir: DirRef, crtName: string, fs: FileSystem,
                                  skipped: seq<string>, key: string, rest: seq<string>)
    requires dir.name == d && !Contains(d, NginxSuffix)
    requires CandidateDomain(crtName) == Some(d)
    requires !Exists(fs, FileRef(dir, d + KeySuffix))
    requires dir.path in fs.dirs && fs.dirs[dir.path] == skipped + [key] + rest
    requires forall i :: 0 <= i < |skipped| ==> !EndsWith(skipped[i], KeySuffix)
    requires EndsWith(key, KeySuffix)
    ensures PairFor(FileRef(dir, crtName), fs) == Pairing(Some(d), Some(FileRef(dir, key)))
  {
    ReplaceAbsent(d, NginxSuffix, "");
    FirstKeyNameSkips(skipped, key, rest);
  }

  /** The fallback is narrow: a certificate whose expected key is missing,
      in a directory named neither after its domain nor after the domain
      plus "_nginx", is not recorded, whatever keys the directory holds. */
  lemma NoFallbackOutsideNamedDirectory(crtFile: FileRef, fs: FileSystem,
                                        content: FileRef -> Option<string>, decode: string -> Option<int>)
    requires CandidateDomain(crtFile.name).Some?
    requires var d := CandidateDomain(crtFile.name).value;
             !Exists(fs, FileRef(crtFile.dir, d + KeySuffix))
             && crtFile.dir.name != d && crtFile.dir.name != d + NginxSuffix
    ensures Found(crtFile, fs, content, decode) == None
  {
  }

  /** `fullchain.crt` beside `privkey.key` in a directory named after the
      site is not recorded: the file name gives the domain "fullchain", and
      the directory is named neither "fullchain" nor "fullchain_nginx". */
  lemma FullchainNotPaired(fs: FileSystem, path: string, content: FileRef -> Option<string>,
                           decode: string -> Option<int>)
    requires path in fs.dirs && fs.dirs[path] == ["fullchain.crt", "privkey.key"]
    ensures Found(FileRef(DirRef(path, "example.com"), "fullchain.crt"), fs, content, decode) == None
  {
    var name := "fullchain.crt";
    assert name == "fullchain" + CrtSuffix;
    assert CandidateDomain(name) == Some("fullchain");
    assert "fullchain.key" != "fullchain.crt" && "fullchain.key" != "privkey.key";
    NoFallbackOutsideNamedDirectory(FileRef(DirRef(path, "example.com"), name), fs, content, decode);
  }

  /** What the scan records for a certificate is accepted: the key is an
      existing ".key" entry of the certificate's own directory, and the
      expiry is the one read from the certificate. A pairing without a
      domain, without an existing key, or whose expiry cannot be read is
      dropped. */
  lemma FoundIsAccepted(crtFile: FileRef, fs: FileSystem, content: FileRef -> Option<string>,
                        decode: string -> Option<int>)
    ensures var p := PairFor(crtFile, fs);
            var expireTime := CertUtils.GetCertificateExpireTime(content(crtFile), decode);
            Found(crtFile, fs, content, decode).None?
            <==> p.domain.None? || p.keyFile.None? || !Exists(fs, p.keyFile.value) || expireTime.None?
    ensures var r := Found(crtFile, fs, content, decode);
            r.Some? ==>
              r.value.crtFile == crtFile && Exists(fs, r.value.keyFile)
              && r.value.keyFile.dir == crtFile.dir && EndsWith(r.value.keyFile.name, KeySuffix)
              && Some(r.value.expireTimeAt) == CertUtils.GetCertificateExpireTime(content(crtFile), decode)
              && Some(r.value.domain) == PairFor(crtFile, fs).domain
  {
    var candidate := CandidateDomain(crtFile.name);
    if candidate.Some? {
      var k := candidate.value + KeySuffix;
      assert EndsWith(k, KeySuffix) by {
        assert k[|k| - |KeySuffix|..] == KeySuffix;
      }
    }
  }

  // The scan map.

  lemma {:induction false} ScanFilesAppend(certMap: map<string, CertInfo>, a: seq<FileRef>, b: seq<FileRef>,
                                           fs: FileSystem, content: FileRef -> Option<string>,
                                           decode: string -> Option<int>)
    ensures ScanFiles(certMap, a + b, fs, content, decode)
            == ScanFiles(ScanFiles(certMap, a, fs, content, decode), b, fs, content, decode)
  {
    if b == [] {
      assert a + b == a;
    } else {
      ScanFilesAppend(certMap, a, b[..|b| - 1], fs, content, decode);
      assert (a + b)[..|a + b| - 1] == a + b[..|b| - 1];
      assert (a + b)[|a + b| - 1] == b[|b| - 1];
    }
  }

  /** The scan never drops a domain: later files only add or overwrite. */
  lemma {:induction false} ScanFilesKeepsDomains(certMap: map<string, CertInfo>, files: seq<FileRef>,
                                                 fs: FileSystem, content: FileRef -> Option<string>,
                                                 decode: string -> Option<int>)
    ensures certMap.Keys <= ScanFiles(certMap, files, fs, content, decode).Keys
  {
    if files != [] {
      ScanFilesKeepsDomains(certMap, files[..|files| - 1], fs, content, decode);
    }
  }

  /** Files none of which records `domain` leave its entry alone. */
  lemma {:induction false} ScanFilesLeavesOthers(certMap: map<string, CertInfo>, files: seq<FileRef>, domain: string,
                                                 fs: FileSystem, content: FileRef -> Option<string>,
                                                 decode: string -> Option<int>)
    requires domain in certMap
    requires forall i :: 0 <= i < |files| ==>
               (Found(files[i], fs, content, decode).None?
                || Found(files[i], fs, content, decode).value.domain != domain)
    ensures domain in ScanFiles(certMap, files, fs, content, decode)
    ensures ScanFiles(certMap, files, fs, content, decode)[domain] == certMap[domain]
  {
    if files != [] {
      ScanFilesLeavesOthers(certMap, files[..|files| - 1], domain, fs, content, decode);
    }
  }

  /** The later file wins: a certificate recorded for a domain stays the
      entry for that domain unless a later file is recorded for it too. */
  lemma LaterFileWins(certMap: map<string, CertInfo>, before: seq<FileRef>, crtFile: FileRef, after: seq<FileRef>,
                      fs: FileSystem, content: FileRef -> Option<string>, decode: string -> Option<int>)
    requires EndsWith(crtFile.name, CrtSuffix) && Found(crtFile, fs, content, decode).Some?
    requires var domain := Found(crtFile, fs, content, decode).value.domain;
             forall i :: 0 <= i < |after| ==>
               (Found(after[i], fs, content, decode).None?
                || Found(after[i], fs, content, decode).value.domain != domain)
    ensures var info := Found(crtFile, fs, content, decode).value;
            var r := ScanFiles(certMap, before + [crtFile] + after, fs, content, decode);
            info.domain in r && r[info.domain] == info
  {
    var info := Found(crtFile, fs, content, decode).value;
    ScanFilesAppend(certMap, before + [crtFile], after, fs, content, decode);
    var mid := ScanFiles(certMap, before + [crtFile], fs, content, decode);
    assert (before + [crtFile])[..|before|] == before;
    assert mid == ScanFiles(certMap, before, fs, content, decode)[info.domain := info];
    ScanFilesLeavesOthers(mid, after, info.domain, fs, content, decode);
  }

  /** Every entry the scan adds is what some visited ".crt" file recorded,
      under that record's own domain. */
  lemma {:induction false} ScanEntriesFound(certMap: map<string, CertInfo>, files: seq<FileRef>,
                                            fs: FileSystem, content: FileRef -> Option<string>,
                                            decode: string -> Option<int>)
    ensures var r := ScanFiles(certMap, files, fs, content, decode);
            forall domain :: domain in r ==>
              (domain in certMap && r[domain] == certMap[domain])
              || (exists f :: f in files && EndsWith(f.name, CrtSuffix)
                    && Found(f, fs, content, decode) == Some(r[domain]) && r[domain].domain == domain)
  {
    if files != [] {
      var init := files[..|files| - 1];
      var last := files[|files| - 1];
      ScanEntriesFound(certMap, init, fs, content, decode);
      var prev := ScanFiles(certMap, init, fs, content, decode);
      var r := ScanFiles(certMap, files, fs, content, decode);
      forall domain | domain in r
        ensures (domain in certMap && r[domain] == certMap[domain])
                || (exists f :: f in files && EndsWith(f.name, CrtSuffix)
                      && Found(f, fs, content, decode) == Some(r[domain]) && r[domain].domain == domain)
      {
        if EndsWith(last.name, CrtSuffix) && Found(last, fs, content, decode).Some?
           && Found(last, fs, content, decode).value.domain == domain {
          assert last in files;
        } else {
          assert domain in prev && r[domain] == prev[domain];
          if !(domain in certMap && prev[domain] == certMap[domain]) {
            var f :| f in init && EndsWith(f.name, CrtSuffix)
                     && Found(f, fs, content, decode) == Some(prev[domain]) && prev[domain].domain == domain;
            assert f in files;
          }
        }
      }
    }
  }

  /** The roots that are existing directories, in order. */
  function ExistingDirs(roots: seq<string>, fs: FileSystem): (r: seq<string>)
    ensures forall i :: 0 <= i < |r| ==> r[i] in fs.dirs
  {
    if roots == [] then []
    else
      var init := ExistingDirs(roots[..|roots| - 1], fs);
      if roots[|roots| - 1] in fs.dirs then init + [roots[|roots| - 1]] else init
  }

  /** A root that does not exist or is not a directory contributes nothing:
      the scan of the roots is the scan of the existing directories among
      them. */
  lemma {:induction false} ScanRootsDirectoriesOnly(roots: seq<string>, maxDepth: int, fs: FileSystem,
                                                    walk: (string, int) -> seq<FileRef>,
                                                    content: FileRef -> Option<string>,
                                                    decode: string -> Option<int>)
    ensures ScanRoots(roots, maxDepth, fs, walk, content, decode)
            == ScanRoots(ExistingDirs(roots, fs), maxDepth, fs, walk, content, decode)
  {
    if roots != [] {
      var init := roots[..|roots| - 1];
      var path := roots[|roots| - 1];
      ScanRootsDirectoriesOnly(init, maxDepth, fs, walk, content, decode);
      if path in fs.dirs {
        var dirs := ExistingDirs(init, fs) + [path];
        assert dirs[..|dirs| - 1] == ExistingDirs(init, fs);
      }
    }
  }

  /** The `HashMap` the scan fills, keyed by domain. */
  class CertMap {
    var entries: map<string, CertInfo>

    constructor ()
      ensures entries == map[]
    {
      entries := map[];
    }

    /** `processCertFile(crtFile, certMap)`. */
    method ProcessCertFile(crtFile: FileRef, fs: FileSystem, content: FileRef -> Option<string>,
                           decode: string -> Option<int>)
      modifies this
      ensures entries == AddFound(old(entries), crtFile, fs, content, decode)
    {
      var fileName := crtFile.name;
      var parentDirName := crtFile.dir.name;
      var domain: Option<string> := None;
      var keyFile: Option<FileRef> := None;

      if EndsWith(fileName, BundleSuffix) {
        domain := Some(fileName[..|fileName| - |BundleSuffix|]);
        keyFile := Some(FileRef(crtFile.dir, domain.value + KeySuffix));
      } else if EndsWith(fileName, CrtSuffix) {
        domain := Some(fileName[..|fileName| - |CrtSuffix|]);
        keyFile := Some(FileRef(crtFile.dir, domain.value + KeySuffix));
      }

      if (domain.None? || !Exists(fs, keyFile.value))
         && ((domain.Some? && parentDirName == domain.value)
             || parentDirName == ConcatText(domain) + NginxSuffix) {
        domain := Some(Replace(parentDirName, NginxSuffix, ""));
        if crtFile.dir.path in fs.dirs {
          var files := FirstKeyName(fs.dirs[crtFile.dir.path]);
          if files.Some? {
            keyFile := Some(FileRef(crtFile.dir, files.value));
          }
        }
      }

      assert Pairing(domain, keyFile) == PairFor(crtFile, fs);
      if domain.Some? && keyFile.Some? && Exists(fs, keyFile.value) {
        var expireTime := CertUtils.GetCertificateExpireTime(content(crtFile), decode);
        if expireTime.Some? {
          entries := entries[domain.value := CertInfo(keyFile.value, crtFile, expireTime.value, domain.value)];
        }
      }
    }
  }

  /** `scanLocalCerts`: every root that is an existing directory is walked,
      and every visited file whose name ends with ".crt" is processed. */
  method ScanLocalCerts(sslCertPathList: Option<seq<string>>, sslCertPathMaxDepth: int, fs: FileSystem,
                        walk: (string, int) -> seq<FileRef>,
                        content: FileRef -> Option<string>, decode: string -> Option<int>)
    returns (certMap: CertMap)
    ensures fresh(certMap)
    ensures certMap.entries == ScannedCerts(sslCertPathList, sslCertPathMaxDepth, fs, walk, content, decode)
  {
    certMap := new CertMap();
    if sslCertPathList.None? || |sslCertPathList.value| == 0 {
      return;
    }
    var roots := sslCertPathList.value;
    var i := 0;
    while i < |roots|
      invariant 0 <= i <= |roots|
      invariant certMap.entries == ScanRoots(roots[..i], sslCertPathMaxDepth, fs, walk, content, decode)
    {
      var path := roots[i];
      assert roots[..i + 1][..i] == roots[..i];
      if path in fs.dirs {
        var files := walk(path, sslCertPathMaxDepth);
        ghost var start := certMap.entries;
        var j := 0;
        while j < |files|
          invariant 0 <= j <= |files|
          invariant certMap.entries == ScanFiles(start, files[..j], fs, content, decode)
        {
          assert files[..j + 1][..j] == files[..j];
          if EndsWith(files[j].name, CrtSuffix) {
            certMap.ProcessCertFile(files[j], fs, content, decode);
          }
          j := j + 1;
        }
        assert files[..j] == files;
      }
      i := i + 1;
    }
    assert roots[..i] == roots;
  }
}
