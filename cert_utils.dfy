/** `CertUtils`: reading a certificate file's expiry. Reading the file and
    decoding the X.509 structure are given: `content` is what the read
    produced (`None` when it failed) and `decode` yields the certificate's
    notAfter instant in epoch milliseconds, or `None` when the factory
    rejects the text. */
module CertUtils {
  import opened JavaText

  const BeginCertText: string := "-----BEGIN CERTIFICATE-----"
  const EndCertText: string := "-----END CERTIFICATE-----"

  /** `isPemContentValid`: both PEM markers occur somewhere in the text. */
  predicate IsPemContentValid(certContent: string) {
    Contains(certContent, BeginCertText) && Contains(certContent, EndCertText)
  }

  /** `getCertificateExpireTime`: the expiry, or `None` (Java null) on an
      unreadable or empty file, on text without both markers, and on any
      decoding failure. Every failure is a `None`; nothing escapes. */
  function GetCertificateExpireTime(content: Option<string>, decode: string -> Option<int>)
    : (r: Option<int>)
    ensures r.Some? <==>
              content.Some? && |content.value| > 0 && IsPemContentValid(content.value)
              && decode(content.value).Some?
    ensures r.Some? ==> r == decode(content.value)
  {
    if content.None? || |content.value| == 0 then None
    else if !IsPemContentValid(content.value) then None
    else decode(content.value)
  }

  /** The marker check is plain containment: the markers may come in either
      order, any number of times, with anything around them. */
  lemma MarkersInAnyOrder(before: string, middle: string, after: string)
    ensures IsPemContentValid(before + EndCertText + middle + BeginCertText + after)
    ensures IsPemContentValid(before + BeginCertText + middle + EndCertText + after)
  {
    var s1 := before + EndCertText + middle + BeginCertText + after;
    assert OccursAt(s1, EndCertText, |before|) by {
      assert s1[|before|..|before| + |EndCertText|] == EndCertText;
    }
    assert OccursAt(s1, BeginCertText, |before| + |EndCertText| + |middle|) by {
      var j := |before| + |EndCertText| + |middle|;
      assert s1[j..j + |BeginCertText|] == BeginCertText;
    }
    var s2 := before + BeginCertText + middle + EndCertText + after;
    assert OccursAt(s2, BeginCertText, |before|) by {
      assert s2[|before|..|before| + |BeginCertText|] == BeginCertText;
    }
    assert OccursAt(s2, EndCertText, |before| + |BeginCertText| + |middle|) by {
      var j := |before| + |BeginCertText| + |middle|;
      assert s2[j..j + |EndCertText|] == EndCertText;
    }
  }

  /** Text without a '-' holds neither marker, so no decoder is ever asked
      about it and no expiry comes back. */
  lemma NoDashNoExpiry(content: string, decode: string -> Option<int>)
    requires '-' !in content
    ensures GetCertificateExpireTime(Some(content), decode) == None
  {
    NoOccurrenceWithoutHead(content, BeginCertText);
  }
}
