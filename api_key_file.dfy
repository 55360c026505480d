/** The credential file read by `CertService.loadApiKeys`: one credential per
    line, `platform@@secretId@@secretKey[@@accountId]`. The file system is
    given as what the read produced: no regular file at the path, or the
    lines read (up to an I/O error, if one occurred). */
module ApiKeyFile {
  import opened JavaText
  import opened Records
  import CommonUtils
  import CloudPlatformActionBase

  datatype KeyFileRead = NotAFile | Read(lines: seq<string>)

  const FieldSeparator: string := "@@"

  /** The credential named by the `@@` fields of a line: nothing for fewer
      than three fields, for a platform off the allow-list or for an empty
      field; otherwise the credential with its fields trimmed and the account
      id defaulting to "". */
  function KeyOfFields(parts: seq<string>): Option<CloudApiKey> {
    if |parts| < 3 then None
    else
      var cloudPlatform := Trim(parts[0]);
      var secretId := Trim(parts[1]);
      var secretKey := Trim(parts[2]);
      var accountId := if |parts| > 3 then Trim(parts[3]) else "";
      if !CloudPlatformActionBase.ValidPlatforms(cloudPlatform) then None
      else if CommonUtils.NotNullOrEmpty(Some(cloudPlatform)) && CommonUtils.NotNullOrEmpty(Some(secretId))
              && CommonUtils.NotNullOrEmpty(Some(secretKey)) then
        Some(CloudApiKey(Some(cloudPlatform), secretId, secretKey, accountId))
      else None
  }

  /** What one line of the file contributes: nothing for a line that is
      blank or starts with '#' once trimmed, otherwise the credential its
      fields name, if any. */
  function ParseKeyLine(rawLine: string): Option<CloudApiKey> {
    var line := Trim(rawLine);
    if |line| == 0 || StartsWith(line, "#") then None
    else KeyOfFields(Split(line, FieldSeparator))
  }

  /** The credentials of a run of lines, in file order. */
  function ParseKeyLines(lines: seq<string>): seq<CloudApiKey> {
    if lines == [] then []
    else
      var key := ParseKeyLine(lines[|lines| - 1]);
      ParseKeyLines(lines[..|lines| - 1]) + (if key.Some? then [key.value] else [])
  }

  /** `loadApiKeys(keyTextFile)`: reads line by line and keeps each
      credential line's key. */
  method LoadApiKeys(file: KeyFileRead) returns (cloudApiKeys: seq<CloudApiKey>)
    ensures file.NotAFile? ==> cloudApiKeys == []
    ensures file.Read? ==> cloudApiKeys == ParseKeyLines(file.lines)
  {
    cloudApiKeys := [];
    if file.NotAFile? {
      return;
    }
    var lines := file.lines;
    var i := 0;
    while i < |lines|
      invariant 0 <= i <= |lines|
      invariant cloudApiKeys == ParseKeyLines(lines[..i])
    {
      var key := ParseKeyLine(lines[i]);
      assert lines[..i + 1][..i] == lines[..i];
      if key.Some? {
        cloudApiKeys := cloudApiKeys + [key.value];
      }
      i := i + 1;
    }
    assert lines[..i] == lines;
  }

  /** Credentials keep file order: a file's keys are its first part's keys
      followed by its second part's. */
  lemma {:induction false} ParseKeyLinesAppend(a: seq<string>, b: seq<string>)
    ensures ParseKeyLines(a + b) == ParseKeyLines(a) + ParseKeyLines(b)
  {
    if b != [] {
      ParseKeyLinesAppend(a, b[..|b| - 1]);
      assert (a + b)[..|a + b| - 1] == a + b[..|b| - 1];
      assert (a + b)[|a + b| - 1] == b[|b| - 1];
    } else {
      assert a + b == a;
    }
  }

  /** Every credential kept names the "tencent" platform and has a
      non-empty secret id and secret key, all without surrounding blanks. */
  lemma KeptKeyIsValid(line: string)
    requires ParseKeyLine(line).Some?
    ensures var k := ParseKeyLine(line).value;
            k.cloudPlatform == Some("tencent") && |k.secretId| > 0 && |k.secretKey| > 0 &&
            Trim(k.secretId) == k.secretId && Trim(k.secretKey) == k.secretKey &&
            Trim(k.accountId) == k.accountId
  {
    KeyOfFieldsValid(Split(Trim(line), FieldSeparator));
  }

  /** The credential built from a line's fields, when there is one. */
  lemma KeyOfFieldsValid(parts: seq<string>)
    requires KeyOfFields(parts).Some?
    ensures var k := KeyOfFields(parts).value;
            k.cloudPlatform == Some("tencent") && |k.secretId| > 0 && |k.secretKey| > 0 &&
            Trim(k.secretId) == k.secretId && Trim(k.secretKey) == k.secretKey &&
            Trim(k.accountId) == k.accountId
  {
    TrimIdempotent(parts[1]);
    TrimIdempotent(parts[2]);
    if |parts| > 3 {
      TrimIdempotent(parts[3]);
    }
  }

  lemma {:induction false} KeptKeysAreValid(lines: seq<string>)
    ensures forall k :: k in ParseKeyLines(lines) ==>
              k.cloudPlatform == Some("tencent") && |k.secretId| > 0 && |k.secretKey| > 0 &&
              Trim(k.secretId) == k.secretId && Trim(k.secretKey) == k.secretKey
  {
    if lines != [] {
      var init, last := lines[..|lines| - 1], lines[|lines| - 1];
      KeptKeysAreValid(init);
      if ParseKeyLine(last).Some? {
        KeptKeyIsValid(last);
        assert ParseKeyLines(lines) == ParseKeyLines(init) + [ParseKeyLine(last).value];
      } else {
        assert ParseKeyLines(lines) == ParseKeyLines(init);
      }
    }
  }

  /** A line that is blank, or starts with '#' once trimmed, adds nothing. */
  lemma SkippedLine(lines: seq<string>, line: string)
    requires |Trim(line)| == 0 || StartsWith(Trim(line), "#")
    ensures ParseKeyLines(lines + [line]) == ParseKeyLines(lines)
  {
    assert (lines + [line])[..|lines|] == lines;
  }

  /** The line a credential is written as: its fields joined by `@@`, the
      account id left off when it is empty. */
  function KeyLine(key: CloudApiKey): string
    requires key.cloudPlatform.Some?
  {
    Join(KeyFields(key), FieldSeparator)
  }

  predicate NoBlankEnds(s: string) {
    s == [] || (!IsBlank(s[0]) && !IsBlank(s[|s| - 1]))
  }

  /** The fields a credential is written with. */
  function KeyFields(key: CloudApiKey): seq<string>
    requires key.cloudPlatform.Some?
  {
    var fields := [key.cloudPlatform.value, key.secretId, key.secretKey];
    if key.accountId == "" then fields else fields + [key.accountId]
  }

  /** A "tencent" credential whose fields carry no '@' and no surrounding
      blanks, with non-empty secrets, is read back from its line unchanged. */
  lemma KeyLineRoundTrip(key: CloudApiKey)
    requires key.cloudPlatform == Some("tencent")
    requires |key.secretId| > 0 && |key.secretKey| > 0
    requires '@' !in key.secretId && '@' !in key.secretKey && '@' !in key.accountId
    requires NoBlankEnds(key.secretId) && NoBlankEnds(key.secretKey) && NoBlankEnds(key.accountId)
    ensures ParseKeyLine(KeyLine(key)) == Some(key)
  {
    var parts := KeyFields(key);
    var line := KeyLine(key);
    var platform := key.cloudPlatform.value;
    assert '@' !in platform && platform[0] == 't';
    SplitKeyLine(parts, line);
    LineShape(parts, line);
    UntrimmedLine(line);
    KeyOfOwnFields(key);
  }

  /** Fields free of '@' whose last one is not empty are split back out of
      their `@@` join. */
  lemma SplitKeyLine(parts: seq<string>, line: string)
    requires |parts| >= 3 && parts[|parts| - 1] != ""
    requires forall i :: 0 <= i < |parts| ==> '@' !in parts[i]
    requires line == Join(parts, FieldSeparator)
    ensures Split(line, FieldSeparator) == parts
  {
    SplitJoinInverse(parts, FieldSeparator);
    assert IndexOf(line, FieldSeparator).Some? by {
      assert |RawSplit(line, FieldSeparator)| > 1;
    }
    assert DropTrailingEmpty(parts) == parts;
  }

  lemma KeyOfOwnFields(key: CloudApiKey)
    requires key.cloudPlatform == Some("tencent")
    requires |key.secretId| > 0 && |key.secretKey| > 0
    requires NoBlankEnds(key.secretId) && NoBlankEnds(key.secretKey) && NoBlankEnds(key.accountId)
    ensures KeyOfFields(KeyFields(key)) == Some(key)
  {
    var parts := KeyFields(key);
    var platform := key.cloudPlatform.value;
    assert parts[0] == platform && parts[1] == key.secretId && parts[2] == key.secretKey;
    assert |parts| > 3 <==> key.accountId != "";
    assert |parts| > 3 ==> parts[3] == key.accountId;
    TrimIdentity(platform);
    TrimIdentity(key.secretId);
    TrimIdentity(key.secretKey);
    TrimIdentity(key.accountId);
  }

  /** The joined line starts with the first field's first character and
      ends with the last field's last character, so it has no blank at
      either end. */
  lemma LineShape(parts: seq<string>, line: string)
    requires |parts| >= 3 && |parts[0]| > 0 && |parts[|parts| - 1]| > 0
    requires NoBlankEnds(parts[0]) && NoBlankEnds(parts[|parts| - 1])
    requires line == Join(parts, FieldSeparator)
    ensures NoBlankEnds(line)
    ensures |line| > 0 && line[0] == parts[0][0]
  {
    assert line == parts[0] + FieldSeparator + Join(parts[1..], FieldSeparator);
    JoinLast(parts, FieldSeparator);
  }

  lemma {:induction false} JoinLast(parts: seq<string>, sep: string)
    requires |parts| >= 1 && |parts[|parts| - 1]| > 0
    ensures |Join(parts, sep)| > 0
    ensures Join(parts, sep)[|Join(parts, sep)| - 1] == parts[|parts| - 1][|parts[|parts| - 1]| - 1]
  {
    if |parts| > 1 {
      JoinLast(parts[1..], sep);
      assert Join(parts, sep) == parts[0] + sep + Join(parts[1..], sep);
    }
  }

  // Examples of lines and what they give.

  /** A platform off the allow-list is refused even with every field present. */
  lemma OtherPlatformRefused(platform: string, secretId: string, secretKey: string)
    requires platform != "tencent" && |platform| > 0 && |secretKey| > 0
    requires NoBlankEnds(platform) && NoBlankEnds(secretKey)
    requires '@' !in platform && '@' !in secretId && '@' !in secretKey
    ensures ParseKeyLine(platform + FieldSeparator + secretId + FieldSeparator + secretKey) == None
  {
    var parts := [platform, secretId, secretKey];
    var line := platform + FieldSeparator + secretId + FieldSeparator + secretKey;
    JoinThree(parts, FieldSeparator);
    SplitKeyLine(parts, line);
    LineShape(parts, line);
    TrimIdentity(line);
    TrimIdentity(platform);
  }

  /** A line whose secret key is empty leaves fewer than three fields once
      the trailing empty piece is dropped, so it gives nothing. */
  lemma MissingKeyRefused(platform: string, secretId: string)
    requires |platform| > 0 && NoBlankEnds(platform)
    requires '@' !in platform && '@' !in secretId
    ensures ParseKeyLine(platform + FieldSeparator + secretId + FieldSeparator) == None
  {
    var line := platform + FieldSeparator + secretId + FieldSeparator;
    EmptyLastField(platform, secretId);
    assert line[0] == platform[0] && line[|line| - 1] == '@';
    UntrimmedLine(line);
    FewFieldsRefused(line, platform, secretId);
  }

  /** The `@@` pieces of `a@@b@@` are `a`, `b` and an empty last piece. */
  lemma EmptyLastField(a: string, b: string)
    requires '@' !in a && '@' !in b
    ensures RawSplit(a + FieldSeparator + b + FieldSeparator, FieldSeparator) == [a, b, ""]
  {
    var tail := b + FieldSeparator;
    assert a + FieldSeparator + b + FieldSeparator == a + FieldSeparator + tail;
    SplitCons(a, FieldSeparator, tail);
    assert tail == b + FieldSeparator + "";
    SplitCons(b, FieldSeparator, "");
    SplitSingle("", FieldSeparator);
  }

  /** A line with no blank at either end is a comment when it starts with
      '#', and otherwise goes straight to its fields. */
  lemma UntrimmedLine(line: string)
    requires |line| > 0 && !IsBlank(line[0]) && !IsBlank(line[|line| - 1])
    ensures line[0] != '#' ==> ParseKeyLine(line) == KeyOfFields(Split(line, FieldSeparator))
    ensures line[0] == '#' ==> ParseKeyLine(line) == None
  {
    TrimIdentity(line);
    assert line[..1][0] == line[0];
  }

  /** Two fields and an empty third piece make fewer than three fields. */
  lemma FewFieldsRefused(line: string, a: string, b: string)
    requires RawSplit(line, FieldSeparator) == [a, b, ""]
    ensures KeyOfFields(Split(line, FieldSeparator)) == None
  {
    var raw := RawSplit(line, FieldSeparator);
    assert IndexOf(line, FieldSeparator).Some?;
    assert |DropTrailingEmpty(raw)| < 3;
  }

  /** A line starting with '#' is a comment, whatever follows. */
  lemma CommentRefused(rest: string)
    ensures ParseKeyLine("#" + rest) == None
  {
    var line := "#" + rest;
    assert TrimStart(line) == line;
    var t := TrimEnd(line);
    assert !IsBlank(line[0]);
    assert t != [];
    assert Trim(line)[0] == '#';
  }
}
