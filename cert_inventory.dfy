/** The inventory half of `CertService`: the persisted list of per-domain
    entries, reconciled with what the local scan found
    (`updateConfigWithLocalCerts`) and with what the cloud platforms list
    (`queryCloudCerts`). Both passes index the list by domain (the first
    entry of a domain wins), overwrite a fixed set of fields of the entry of
    each observed domain, create an entry with a random 8-character id and
    `enable = false` for a domain not yet present, and replace the list with
    the index's values. */
module CertInventory {
  import opened JavaText
  import opened Records
  import CommonUtils
  import TencentCloudPlatformApi
  import CloudPlatformActionBase

  type Index = map<Option<string>, PlatformSslCertInfo>

  /** Every entry is filed under its own domain. */
  predicate Keyed(index: Index) {
    forall domain :: domain in index ==> index[domain].domain == domain
  }

  /** `stream().collect(toMap(getDomain, c -> c, (a, b) -> a))`: the entries
      by domain, the first entry of a domain winning. */
  function IndexByDomain(infos: seq<PlatformSslCertInfo>): (index: Index)
    ensures Keyed(index)
    ensures forall i :: 0 <= i < |infos| ==> infos[i].domain in index
    ensures forall domain :: domain in index ==> exists i :: 0 <= i < |infos| && infos[i] == index[domain]
  {
    if infos == [] then map[]
    else
      var init := infos[..|infos| - 1];
      var last := infos[|infos| - 1];
      var index := IndexByDomain(init);
      assert forall i :: 0 <= i < |init| ==> init[i] == infos[i];
      if last.domain in index then index else index[last.domain := last]
  }

  /** Among entries sharing a domain, the first is the one indexed. */
  lemma {:induction false} FirstEntryWins(infos: seq<PlatformSslCertInfo>, i: nat)
    requires i < |infos|
    requires forall j :: 0 <= j < i ==> infos[j].domain != infos[i].domain
    ensures IndexByDomain(infos)[infos[i].domain] == infos[i]
  {
    var init := infos[..|infos| - 1];
    if i < |infos| - 1 {
      assert init[i] == infos[i];
      FirstEntryWins(init, i);
    } else {
      assert forall j :: 0 <= j < |init| ==> init[j] == infos[j];
    }
  }

  /** The fields one observation of a domain writes. */
  datatype Patch =
    | LocalPatch(cert: CertInfo)
    | CloudPatch(info: PlatformSslCertInfo, accountId: string)

  datatype Observation = Observation(domain: Option<string>, patch: Patch)

  /** The setters one pass calls on the entry of an observed domain: the
      local pass sets the domain, the directory path, the two file names and
      the expiry; the cloud pass sets the domain, certificate id, status,
      remark, expiry and the account id of the API key. */
  function Apply(config: PlatformSslCertInfo, domain: Option<string>, patch: Patch): PlatformSslCertInfo {
    match patch
    case LocalPatch(cert) =>
      config.(domain := domain, localParentFoldPath := Some(cert.crtFile.dir.path),
              keyFilename := Some(cert.keyFile.name), crtFilename := Some(cert.crtFile.name),
              expireTimeAt := Some(cert.expireTimeAt))
    case CloudPatch(info, accountId) =>
      config.(domain := domain, certId := info.certId, certStatus := info.certStatus,
              certRemark := info.certRemark, expireTimeAt := info.expireTimeAt,
              accountId := Some(accountId))
  }

  /** The index and how many random draws have been consumed. */
  datatype Ledger = Ledger(index: Index, drawn: nat)

  /** One observation: the existing entry is patched; a domain not yet
      indexed gets a fresh entry, patched, with the next 8 draws as its id
      and `enable = false`. */
  function Observe(ledger: Ledger, o: Observation, random: nat -> CommonUtils.Draw): Ledger {
    if o.domain in ledger.index then
      Ledger(ledger.index[o.domain := Apply(ledger.index[o.domain], o.domain, o.patch)], ledger.drawn)
    else
      var created := Apply(NewInfo(), o.domain, o.patch)
                       .(id := Some(CommonUtils.DrawnString(random, ledger.drawn, 8)), enable := Some(false));
      Ledger(ledger.index[o.domain := created], ledger.drawn + 8)
  }

  function ObserveAll(ledger: Ledger, obs: seq<Observation>, random: nat -> CommonUtils.Draw): Ledger {
    if obs == [] then ledger
    else Observe(ObserveAll(ledger, obs[..|obs| - 1], random), obs[|obs| - 1], random)
  }

  /** The domains a run of observations touches. */
  function Observed(obs: seq<Observation>): set<Option<string>> {
    set i | 0 <= i < |obs| :: obs[i].domain
  }

  /** The local pass's observations: each domain of the scan map, in the
      order the map is iterated, with its certificate. */
  function LocalObservations(certMap: map<string, CertInfo>, order: seq<string>): (obs: seq<Observation>)
    requires forall i :: 0 <= i < |order| ==> order[i] in certMap
    ensures |obs| == |order|
    ensures forall i :: 0 <= i < |obs| ==> obs[i] == Observation(Some(order[i]), LocalPatch(certMap[order[i]]))
  {
    seq(|order|, i requires 0 <= i < |order| => Observation(Some(order[i]), LocalPatch(certMap[order[i]])))
  }

  /** One API key's observations: each listed entry, in list order. */
  function KeyObservations(key: CloudApiKey, infos: seq<PlatformSslCertInfo>): (obs: seq<Observation>)
    ensures |obs| == |infos|
    ensures forall i :: 0 <= i < |obs| ==> obs[i] == Observation(infos[i].domain, CloudPatch(infos[i], key.accountId))
  {
    seq(|infos|, i requires 0 <= i < |infos| => Observation(infos[i].domain, CloudPatch(infos[i], key.accountId)))
  }

  /** The cloud pass's observations: the keys in order, each with what the
      platform dispatch returned for it. `listing(key)` is what the Tencent
      listing produced for that key. */
  function CloudObservations(apiKeys: seq<CloudApiKey>, listing: CloudApiKey -> TencentCloudPlatformApi.Outcome)
    : seq<Observation>
  {
    if apiKeys == [] then []
    else
      var key := apiKeys[|apiKeys| - 1];
      CloudObservations(apiKeys[..|apiKeys| - 1], listing)
      + KeyObservations(key, CloudPlatformActionBase.GetCertInfoList(Some(key), listing(key)))
  }

  /** `new ArrayList<>(existingConfigMap.values())`: every entry of the index
      once, in an order the model leaves open. */
  predicate ListsExactly(infos: seq<PlatformSslCertInfo>, index: Index) {
    (forall i :: 0 <= i < |infos| ==> infos[i].domain in index && index[infos[i].domain] == infos[i])
    && (forall i, j :: 0 <= i < j < |infos| ==> infos[i].domain != infos[j].domain)
    && (forall domain :: domain in index ==> exists i :: 0 <= i < |infos| && infos[i].domain == domain)
  }

  /** `order` is an iteration of the scan map: each of its keys once. */
  predicate EnumeratesKeys(order: seq<string>, certMap: map<string, CertInfo>) {
    (forall i :: 0 <= i < |order| ==> order[i] in certMap)
    && (forall domain :: domain in certMap ==> domain in order)
    && (forall i, j :: 0 <= i < j < |order| ==> order[i] != order[j])
  }

  // Observations, in general.

  lemma {:induction false} ObserveAllAppend(ledger: Ledger, a: seq<Observation>, b: seq<Observation>,
                                            random: nat -> CommonUtils.Draw)
    ensures ObserveAll(ledger, a + b, random) == ObserveAll(ObserveAll(ledger, a, random), b, random)
  {
    if b == [] {
      assert a + b == a;
    } else {
      ObserveAllAppend(ledger, a, b[..|b| - 1], random);
      assert (a + b)[..|a + b| - 1] == a + b[..|b| - 1];
      assert (a + b)[|a + b| - 1] == b[|b| - 1];
    }
  }

  lemma ObserveAllStep(ledger: Ledger, obs: seq<Observation>, i: nat, random: nat -> CommonUtils.Draw)
    requires i < |obs|
    ensures ObserveAll(ledger, obs[..i + 1], random) == Observe(ObserveAll(ledger, obs[..i], random), obs[i], random)
  {
    assert obs[..i + 1][..i] == obs[..i];
  }

  lemma ObservedSnoc(obs: seq<Observation>)
    requires obs != []
    ensures Observed(obs) == Observed(obs[..|obs| - 1]) + {obs[|obs| - 1].domain}
  {
    var init := obs[..|obs| - 1];
    forall domain | domain in Observed(obs)
      ensures domain in Observed(init) + {obs[|obs| - 1].domain}
    {
      var i :| 0 <= i < |obs| && obs[i].domain == domain;
      if i < |init| {
        assert init[i] == obs[i];
      }
    }
    forall domain | domain in Observed(init)
      ensures domain in Observed(obs)
    {
      var i :| 0 <= i < |init| && init[i].domain == domain;
      assert obs[i] == init[i];
    }
  }

  /** Nothing is removed: the domains afterwards are the domains before and
      the observed ones. */
  lemma {:induction false} ObserveAllDomains(ledger: Ledger, obs: seq<Observation>, random: nat -> CommonUtils.Draw)
    ensures ObserveAll(ledger, obs, random).index.Keys == ledger.index.Keys + Observed(obs)
  {
    if obs != [] {
      ObserveAllDomains(ledger, obs[..|obs| - 1], random);
      ObservedSnoc(obs);
    }
  }

  /** Entries stay filed under their own domain. */
  lemma {:induction false} ObserveAllKeyed(ledger: Ledger, obs: seq<Observation>, random: nat -> CommonUtils.Draw)
    requires Keyed(ledger.index)
    ensures Keyed(ObserveAll(ledger, obs, random).index)
  {
    if obs != [] {
      ObserveAllKeyed(ledger, obs[..|obs| - 1], random);
    }
  }

  /** An entry whose domain is not observed is left exactly as it was. */
  lemma {:induction false} ObserveAllUnobserved(ledger: Ledger, obs: seq<Observation>, domain: Option<string>,
                                                random: nat -> CommonUtils.Draw)
    requires domain in ledger.index && domain !in Observed(obs)
    ensures domain in ObserveAll(ledger, obs, random).index
    ensures ObserveAll(ledger, obs, random).index[domain] == ledger.index[domain]
  {
    if obs != [] {
      ObservedSnoc(obs);
      ObserveAllUnobserved(ledger, obs[..|obs| - 1], domain, random);
      ObserveAllDomains(ledger, obs[..|obs| - 1], random);
    }
  }

  /** When every observed domain is already indexed, no draw is consumed. */
  lemma {:induction false} ObserveAllNoDraws(ledger: Ledger, obs: seq<Observation>, random: nat -> CommonUtils.Draw)
    requires Observed(obs) <= ledger.index.Keys
    ensures ObserveAll(ledger, obs, random).drawn == ledger.drawn
  {
    if obs != [] {
      ObservedSnoc(obs);
      ObserveAllNoDraws(ledger, obs[..|obs| - 1], random);
      ObserveAllDomains(ledger, obs[..|obs| - 1], random);
    }
  }

  /** A pass patches with one kind of observation only. */
  predicate SameKind(obs: seq<Observation>) {
    (forall i :: 0 <= i < |obs| ==> obs[i].patch.LocalPatch?)
    || (forall i :: 0 <= i < |obs| ==> obs[i].patch.CloudPatch?)
  }

  /** The patch of the last observation of `domain`. */
  function LastPatch(obs: seq<Observation>, domain: Option<string>): (p: Patch)
    requires domain in Observed(obs)
    ensures exists i :: 0 <= i < |obs| && obs[i].domain == domain && obs[i].patch == p
                        && forall j :: i < j < |obs| ==> obs[j].domain != domain
  {
    ObservedSnoc(obs);
    var init := obs[..|obs| - 1];
    if obs[|obs| - 1].domain == domain then obs[|obs| - 1].patch
    else
      var p := LastPatch(init, domain);
      assert forall i :: 0 <= i < |init| ==> init[i] == obs[i];
      p
  }

  /** A later patch of the same kind overwrites every field an earlier one
      wrote. */
  lemma ApplyOverwrites(config: PlatformSslCertInfo, domain: Option<string>, first: Patch, second: Patch)
    requires first.LocalPatch? == second.LocalPatch?
    ensures Apply(Apply(config, domain, first), domain, second) == Apply(config, domain, second)
  {
  }

  /** What an entry ends up as: the entry it started from (or a fresh one
      with its random id and `enable = false`) with the last observation's
      patch applied; earlier observations of the domain leave no trace. */
  lemma {:induction false} LastObservationWins(ledger: Ledger, obs: seq<Observation>, domain: Option<string>,
                                               random: nat -> CommonUtils.Draw)
    requires SameKind(obs) && domain in Observed(obs)
    ensures var r := ObserveAll(ledger, obs, random).index;
            domain in r
            && r[domain] == Apply(if domain in ledger.index then ledger.index[domain]
                                  else NewInfo().(id := r[domain].id, enable := Some(false)),
                                  domain, LastPatch(obs, domain))
    decreases |obs|, 1
  {
    var init := obs[..|obs| - 1];
    ObservedSnoc(obs);
    SameKindInit(obs);
    if obs[|obs| - 1].domain == domain {
      LastObservationOfDomain(ledger, obs, domain, random);
    } else {
      LastObservationWins(ledger, init, domain, random);
    }
  }

  lemma SameKindInit(obs: seq<Observation>)
    requires obs != [] && SameKind(obs)
    ensures SameKind(obs[..|obs| - 1])
  {
    assert forall i :: 0 <= i < |obs| - 1 ==> obs[..|obs| - 1][i] == obs[i];
  }

  /** `LastObservationWins` when the last observation is of `domain`. */
  lemma {:induction false} LastObservationOfDomain(ledger: Ledger, obs: seq<Observation>, domain: Option<string>,
                                                   random: nat -> CommonUtils.Draw)
    requires SameKind(obs) && obs != [] && obs[|obs| - 1].domain == domain
    ensures var r := ObserveAll(ledger, obs, random).index;
            domain in r
            && r[domain] == Apply(if domain in ledger.index then ledger.index[domain]
                                  else NewInfo().(id := r[domain].id, enable := Some(false)),
                                  domain, obs[|obs| - 1].patch)
    decreases |obs|, 0
  {
    var init := obs[..|obs| - 1];
    var last := obs[|obs| - 1];
    ObserveAllDomains(ledger, init, random);
    SameKindInit(obs);
    var prev := ObserveAll(ledger, init, random).index;
    if domain in Observed(init) {
      LastObservationWins(ledger, init, domain, random);
      var p1 := LastPatch(init, domain);
      assert p1.LocalPatch? == last.patch.LocalPatch?;
      var base := if domain in ledger.index then ledger.index[domain]
                  else NewInfo().(id := prev[domain].id, enable := Some(false));
      ApplyOverwrites(base, domain, p1, last.patch);
    } else if domain in ledger.index {
      ObserveAllUnobserved(ledger, init, domain, random);
    }
  }

  /** Observing the same things again changes nothing and draws nothing:
      both passes are idempotent. */
  lemma ObserveAllIdempotent(ledger: Ledger, obs: seq<Observation>, random: nat -> CommonUtils.Draw)
    requires SameKind(obs)
    ensures ObserveAll(ObserveAll(ledger, obs, random), obs, random) == ObserveAll(ledger, obs, random)
  {
    var once := ObserveAll(ledger, obs, random);
    var twice := ObserveAll(once, obs, random);
    ObserveAllDomains(ledger, obs, random);
    ObserveAllDomains(once, obs, random);
    ObserveAllNoDraws(once, obs, random);
    forall domain | domain in once.index
      ensures twice.index[domain] == once.index[domain]
    {
      if domain in Observed(obs) {
        LastObservationWins(ledger, obs, domain, random);
        LastObservationWins(once, obs, domain, random);
        var p := LastPatch(obs, domain);
        var base := if domain in ledger.index then ledger.index[domain]
                    else NewInfo().(id := once.index[domain].id, enable := Some(false));
        ApplyOverwrites(base, domain, p, p);
      } else {
        ObserveAllUnobserved(once, obs, domain, random);
      }
    }
    assert twice.index == once.index;
  }

  /** A domain first seen in the pass gets an id of 8 random letters and
      digits. */
  lemma {:induction false} ObserveAllNewId(ledger: Ledger, obs: seq<Observation>, domain: Option<string>,
                                           random: nat -> CommonUtils.Draw)
    requires domain !in ledger.index && domain in Observed(obs)
    ensures var r := ObserveAll(ledger, obs, random).index;
            domain in r && r[domain].id.Some? && CommonUtils.IsRandomId(r[domain].id.value, 8)
  {
    var init := obs[..|obs| - 1];
    ObservedSnoc(obs);
    ObserveAllDomains(ledger, init, random);
    var prev := ObserveAll(ledger, init, random);
    if domain in Observed(init) {
      ObserveAllNewId(ledger, init, domain, random);
    } else {
      CommonUtils.DrawnStringIsRandomId(random, prev.drawn, 8);
    }
  }

  lemma NewDomainsStep(seen: set<Option<string>>, next: Option<string>, known: set<Option<string>>)
    ensures next in known + seen ==> (seen + {next}) - known == seen - known
    ensures next !in known + seen ==> |(seen + {next}) - known| == |seen - known| + 1
  {
    if next !in known + seen {
      assert (seen + {next}) - known == (seen - known) + {next};
    }
  }

  /** Exactly 8 draws are consumed per domain the pass creates. */
  lemma {:induction false} ObserveAllDraws(ledger: Ledger, obs: seq<Observation>, random: nat -> CommonUtils.Draw)
    ensures ObserveAll(ledger, obs, random).drawn == ledger.drawn + 8 * |Observed(obs) - ledger.index.Keys|
  {
    if obs != [] {
      var init := obs[..|obs| - 1];
      var last := obs[|obs| - 1];
      ObservedSnoc(obs);
      ObserveAllDraws(ledger, init, random);
      ObserveAllDomains(ledger, init, random);
      NewDomainsStep(Observed(init), last.domain, ledger.index.Keys);
    }
  }

  // The local pass.

  /** Every local observation of a domain carries that domain's certificate. */
  lemma LocalLastPatch(certMap: map<string, CertInfo>, order: seq<string>, domain: string)
    requires forall i :: 0 <= i < |order| ==> order[i] in certMap
    requires domain in order
    ensures Some(domain) in Observed(LocalObservations(certMap, order))
    ensures LastPatch(LocalObservations(certMap, order), Some(domain)) == LocalPatch(certMap[domain])
  {
    var obs := LocalObservations(certMap, order);
    var i :| 0 <= i < |order| && order[i] == domain;
    assert obs[i].domain == Some(domain);
  }

  /** After the local pass, the entry of a scanned domain that was already
      present has only its directory path, file names and expiry replaced
      (its id, `enable` and cloud fields are kept); a scanned domain that was
      not present gets a fresh entry with those fields, a random
      8-character id and `enable = false`. */
  lemma LocalPassEntry(ledger: Ledger, certMap: map<string, CertInfo>, order: seq<string>,
                       random: nat -> CommonUtils.Draw, domain: string)
    requires Keyed(ledger.index)
    requires EnumeratesKeys(order, certMap) && domain in certMap
    ensures var r := ObserveAll(ledger, LocalObservations(certMap, order), random).index;
            var cert := certMap[domain];
            Some(domain) in r
            && (Some(domain) in ledger.index ==>
                  r[Some(domain)] == ledger.index[Some(domain)].(
                    localParentFoldPath := Some(cert.crtFile.dir.path), keyFilename := Some(cert.keyFile.name),
                    crtFilename := Some(cert.crtFile.name), expireTimeAt := Some(cert.expireTimeAt)))
            && (Some(domain) !in ledger.index ==>
                  r[Some(domain)] == NewInfo().(
                    domain := Some(domain), id := r[Some(domain)].id, enable := Some(false),
                    localParentFoldPath := Some(cert.crtFile.dir.path), keyFilename := Some(cert.keyFile.name),
                    crtFilename := Some(cert.crtFile.name), expireTimeAt := Some(cert.expireTimeAt))
                  && r[Some(domain)].id.Some? && CommonUtils.IsRandomId(r[Some(domain)].id.value, 8))
  {
    var obs := LocalObservations(certMap, order);
    LocalLastPatch(certMap, order, domain);
    assert SameKind(obs);
    LastObservationWins(ledger, obs, Some(domain), random);
    if Some(domain) !in ledger.index {
      ObserveAllNewId(ledger, obs, Some(domain), random);
    }
  }

  /** The local pass leaves the entry of every domain it did not scan
      untouched, and removes none. */
  lemma LocalPassOthers(ledger: Ledger, certMap: map<string, CertInfo>, order: seq<string>,
                        random: nat -> CommonUtils.Draw, domain: Option<string>)
    requires EnumeratesKeys(order, certMap)
    requires domain in ledger.index && (domain.None? || domain.value !in certMap)
    ensures var r := ObserveAll(ledger, LocalObservations(certMap, order), random).index;
            domain in r && r[domain] == ledger.index[domain]
  {
    var obs := LocalObservations(certMap, order);
    ObserveAllUnobserved(ledger, obs, domain, random);
  }

  /** The domains after the local pass are those before and the scanned ones. */
  lemma LocalPassDomains(ledger: Ledger, certMap: map<string, CertInfo>, order: seq<string>,
                         random: nat -> CommonUtils.Draw)
    requires EnumeratesKeys(order, certMap)
    ensures ObserveAll(ledger, LocalObservations(certMap, order), random).index.Keys
            == ledger.index.Keys + (set domain | domain in certMap :: Some(domain))
  {
    var obs := LocalObservations(certMap, order);
    ObserveAllDomains(ledger, obs, random);
    forall k | k in Observed(obs) ensures k in (set domain | domain in certMap :: Some(domain)) {
      var i :| 0 <= i < |obs| && obs[i].domain == k;
    }
    forall domain | domain in certMap ensures Some(domain) in Observed(obs) {
      LocalLastPatch(certMap, order, domain);
    }
  }

  // The cloud pass.

  lemma {:induction false} CloudObservationsAppend(a: seq<CloudApiKey>, b: seq<CloudApiKey>,
                                                   listing: CloudApiKey -> TencentCloudPlatformApi.Outcome)
    ensures CloudObservations(a + b, listing) == CloudObservations(a, listing) + CloudObservations(b, listing)
  {
    if b == [] {
      assert a + b == a;
    } else {
      var init, key := b[..|b| - 1], b[|b| - 1];
      var tail := KeyObservations(key, CloudPlatformActionBase.GetCertInfoList(Some(key), listing(key)));
      CloudObservationsAppend(a, init, listing);
      AppendInit(a, b);
      CloudObservationsSnoc(a + b, listing);
      CloudObservationsSnoc(b, listing);
      calc {
        CloudObservations(a + b, listing);
        CloudObservations(a + init, listing) + tail;
        CloudObservations(a, listing) + CloudObservations(init, listing) + tail;
        CloudObservations(a, listing) + CloudObservations(b, listing);
      }
    }
  }

  lemma AppendInit<T>(a: seq<T>, b: seq<T>)
    requires b != []
    ensures (a + b)[..|a + b| - 1] == a + b[..|b| - 1] && (a + b)[|a + b| - 1] == b[|b| - 1]
  {
  }

  lemma CloudObservationsSnoc(keys: seq<CloudApiKey>, listing: CloudApiKey -> TencentCloudPlatformApi.Outcome)
    requires keys != []
    ensures var key := keys[|keys| - 1];
            CloudObservations(keys, listing)
            == CloudObservations(keys[..|keys| - 1], listing)
               + KeyObservations(key, CloudPlatformActionBase.GetCertInfoList(Some(key), listing(key)))
  {
  }

  lemma CloudObservationsStep(apiKeys: seq<CloudApiKey>, k: nat, listing: CloudApiKey -> TencentCloudPlatformApi.Outcome)
    requires k < |apiKeys|
    ensures var key := apiKeys[k];
            CloudObservations(apiKeys[..k + 1], listing)
            == CloudObservations(apiKeys[..k], listing)
               + KeyObservations(key, CloudPlatformActionBase.GetCertInfoList(Some(key), listing(key)))
  {
    assert apiKeys[..k + 1][..k] == apiKeys[..k];
    CloudObservationsSnoc(apiKeys[..k + 1], listing);
  }

  /** A key whose listing failed is skipped, and the keys after it are
      still processed. */
  lemma FailedKeySkipped(before: seq<CloudApiKey>, key: CloudApiKey, after: seq<CloudApiKey>,
                         listing: CloudApiKey -> TencentCloudPlatformApi.Outcome)
    requires listing(key).Failed?
    ensures CloudObservations(before + [key] + after, listing) == CloudObservations(before + after, listing)
  {
    CloudObservationsAppend(before + [key], after, listing);
    CloudObservationsAppend(before, after, listing);
    SkippedKeyAddsNothing(before, key, listing);
  }

  lemma SkippedKeyAddsNothing(before: seq<CloudApiKey>, key: CloudApiKey,
                              listing: CloudApiKey -> TencentCloudPlatformApi.Outcome)
    requires listing(key).Failed?
    ensures CloudObservations(before + [key], listing) == CloudObservations(before, listing)
  {
    AppendInit(before, [key]);
    CloudObservationsSnoc(before + [key], listing);
    assert CloudPlatformActionBase.GetCertInfoList(Some(key), listing(key)) == [];
  }

  /** Every cloud observation is an entry some key's listing returned,
      filed under that entry's domain and carrying that key's account id. */
  lemma {:induction false} CloudObservationSource(apiKeys: seq<CloudApiKey>,
                                                  listing: CloudApiKey -> TencentCloudPlatformApi.Outcome, i: nat)
    requires i < |CloudObservations(apiKeys, listing)|
    ensures var o := CloudObservations(apiKeys, listing)[i];
            o.patch.CloudPatch? && o.domain == o.patch.info.domain
            && exists k :: 0 <= k < |apiKeys| && o.patch.accountId == apiKeys[k].accountId
                 && o.patch.info in CloudPlatformActionBase.GetCertInfoList(Some(apiKeys[k]), listing(apiKeys[k]))
  {
    var init := apiKeys[..|apiKeys| - 1];
    var key := apiKeys[|apiKeys| - 1];
    var head := CloudObservations(init, listing);
    if i < |head| {
      CloudObservationSource(init, listing, i);
      var o := head[i];
      var k :| 0 <= k < |init| && o.patch.accountId == init[k].accountId
                 && o.patch.info in CloudPlatformActionBase.GetCertInfoList(Some(init[k]), listing(init[k]));
      assert apiKeys[k] == init[k];
    } else {
      var infos := CloudPlatformActionBase.GetCertInfoList(Some(key), listing(key));
      assert CloudObservations(apiKeys, listing)[i] == KeyObservations(key, infos)[i - |head|];
      assert infos[i - |head|] in infos;
    }
  }

  lemma CloudSameKind(apiKeys: seq<CloudApiKey>, listing: CloudApiKey -> TencentCloudPlatformApi.Outcome)
    ensures SameKind(CloudObservations(apiKeys, listing))
  {
    forall i | 0 <= i < |CloudObservations(apiKeys, listing)|
      ensures CloudObservations(apiKeys, listing)[i].patch.CloudPatch?
    {
      CloudObservationSource(apiKeys, listing, i);
    }
  }

  /** After the cloud pass, the entry of a listed domain that was already
      present has only its certificate id, status, remark, expiry and
      account id replaced, by the last listed entry of that domain and the
      account id of the key that listed it; its id, `enable` and local
      fields are kept. A listed domain not present before gets a fresh entry
      with those fields, a random 8-character id and `enable = false`. */
  lemma CloudPassEntry(ledger: Ledger, apiKeys: seq<CloudApiKey>,
                       listing: CloudApiKey -> TencentCloudPlatformApi.Outcome,
                       random: nat -> CommonUtils.Draw, domain: Option<string>)
    requires Keyed(ledger.index)
    requires domain in Observed(CloudObservations(apiKeys, listing))
    ensures var obs := CloudObservations(apiKeys, listing);
            var r := ObserveAll(ledger, obs, random).index;
            var p := LastPatch(obs, domain);
            p.CloudPatch? && p.info.domain == domain
            && (exists k :: 0 <= k < |apiKeys| && p.accountId == apiKeys[k].accountId
                  && p.info in CloudPlatformActionBase.GetCertInfoList(Some(apiKeys[k]), listing(apiKeys[k])))
            && domain in r
            && (domain in ledger.index ==>
                  r[domain] == ledger.index[domain].(
                    certId := p.info.certId, certStatus := p.info.certStatus, certRemark := p.info.certRemark,
                    expireTimeAt := p.info.expireTimeAt, accountId := Some(p.accountId)))
            && (domain !in ledger.index ==>
                  r[domain] == NewInfo().(
                    domain := domain, id := r[domain].id, enable := Some(false),
                    certId := p.info.certId, certStatus := p.info.certStatus, certRemark := p.info.certRemark,
                    expireTimeAt := p.info.expireTimeAt, accountId := Some(p.accountId))
                  && r[domain].id.Some? && CommonUtils.IsRandomId(r[domain].id.value, 8))
  {
    var obs := CloudObservations(apiKeys, listing);
    var p := LastPatch(obs, domain);
    var i :| 0 <= i < |obs| && obs[i].domain == domain && obs[i].patch == p
             && forall j :: i < j < |obs| ==> obs[j].domain != domain;
    CloudObservationSource(apiKeys, listing, i);
    CloudSameKind(apiKeys, listing);
    LastObservationWins(ledger, obs, domain, random);
    if domain !in ledger.index {
      ObserveAllNewId(ledger, obs, domain, random);
    }
  }

  // The persisted list.

  /** `new ArrayList<>(index.values())`. */
  method ListValues(index: Index) returns (infos: seq<PlatformSslCertInfo>)
    requires Keyed(index)
    ensures ListsExactly(infos, index)
  {
    infos := [];
    var rest := index.Keys;
    while rest != {}
      invariant rest <= index.Keys
      invariant forall i :: 0 <= i < |infos| ==>
                  infos[i].domain in index && infos[i].domain !in rest && index[infos[i].domain] == infos[i]
      invariant forall i, j :: 0 <= i < j < |infos| ==> infos[i].domain != infos[j].domain
      invariant forall domain :: domain in index && domain !in rest ==>
                  exists i :: 0 <= i < |infos| && infos[i].domain == domain
      decreases rest
    {
      var domain :| domain in rest;
      ghost var listed := infos;
      infos := infos + [index[domain]];
      rest := rest - {domain};
      forall d | d in index && d !in rest
        ensures exists i :: 0 <= i < |infos| && infos[i].domain == d
      {
        if d == domain {
          assert infos[|infos| - 1].domain == d;
        } else {
          var i :| 0 <= i < |listed| && listed[i].domain == d;
          assert infos[i].domain == d;
        }
      }
    }
  }

  /** No pass deletes anything: every domain of the old list is still in the
      new one, which holds one entry per domain. */
  lemma NothingDeleted(before: seq<PlatformSslCertInfo>, drawn: nat, obs: seq<Observation>,
                       random: nat -> CommonUtils.Draw, after: seq<PlatformSslCertInfo>)
    requires ListsExactly(after, ObserveAll(Ledger(IndexByDomain(before), drawn), obs, random).index)
    ensures forall i :: 0 <= i < |before| ==> exists j :: 0 <= j < |after| && after[j].domain == before[i].domain
    ensures forall i :: 0 <= i < |obs| ==> exists j :: 0 <= j < |after| && after[j].domain == obs[i].domain
    ensures forall i, j :: 0 <= i < j < |after| ==> after[i].domain != after[j].domain
  {
    ObserveAllDomains(Ledger(IndexByDomain(before), drawn), obs, random);
    assert forall i :: 0 <= i < |obs| ==> obs[i].domain in Observed(obs);
  }

  /** `App.appConfig` as the certificate service sees it: the persisted list
      of entries, the draws of `Math.random()` consumed so far, and how often
      the configuration has been saved. */
  class Inventory {
    var infos: seq<PlatformSslCertInfo>
    var drawn: nat
    var saves: nat
    const random: nat -> CommonUtils.Draw

    constructor (infos: seq<PlatformSslCertInfo>, random: nat -> CommonUtils.Draw)
      ensures this.infos == infos && this.random == random && drawn == 0 && saves == 0
    {
      this.infos := infos;
      this.random := random;
      drawn := 0;
      saves := 0;
    }

    /** `updateConfigWithLocalCerts(certMap)`, iterating the map in `order`. */
    method UpdateConfigWithLocalCerts(certMap: map<string, CertInfo>, order: seq<string>)
      requires EnumeratesKeys(order, certMap)
      modifies this
      ensures var after := ObserveAll(Ledger(IndexByDomain(old(infos)), old(drawn)),
                                      LocalObservations(certMap, order), random);
              ListsExactly(infos, after.index) && drawn == after.drawn
      ensures saves == old(saves) + 1
    {
      var existingConfigMap := IndexByDomain(infos);
      ghost var start := Ledger(existingConfigMap, drawn);
      existingConfigMap := RecordLocalCerts(existingConfigMap, certMap, order);
      ObserveAllKeyed(start, LocalObservations(certMap, order), random);
      infos := ListValues(existingConfigMap);
      saves := saves + 1;
    }

    /** The loop of `updateConfigWithLocalCerts`: each scanned certificate,
        in `order`, patches the entry of its domain, or creates one. */
    method RecordLocalCerts(existingConfigMap: Index, certMap: map<string, CertInfo>, order: seq<string>)
      returns (updated: Index)
      requires forall i :: 0 <= i < |order| ==> order[i] in certMap
      modifies this
      ensures infos == old(infos) && saves == old(saves)
      ensures Ledger(updated, drawn)
              == ObserveAll(Ledger(existingConfigMap, old(drawn)), LocalObservations(certMap, order), random)
    {
      updated := existingConfigMap;
      ghost var start := Ledger(existingConfigMap, drawn);
      ghost var obs := LocalObservations(certMap, order);
      var i := 0;
      while i < |order|
        invariant 0 <= i <= |order|
        invariant infos == old(infos) && saves == old(saves)
        invariant Ledger(updated, drawn) == ObserveAll(start, obs[..i], random)
      {
        var domain := order[i];
        var certInfo := certMap[domain];
        ghost var before := Ledger(updated, drawn);
        var isNew := Some(domain) !in updated;
        var config := if isNew then NewInfo() else updated[Some(domain)];
        config := config.(domain := Some(domain));
        config := config.(localParentFoldPath := Some(certInfo.crtFile.dir.path));
        config := config.(keyFilename := Some(certInfo.keyFile.name));
        config := config.(crtFilename := Some(certInfo.crtFile.name));
        config := config.(expireTimeAt := Some(certInfo.expireTimeAt));
        assert obs[i] == Observation(Some(domain), LocalPatch(certInfo));
        assert config == Apply(if isNew then NewInfo() else updated[Some(domain)], Some(domain),
                               LocalPatch(certInfo));
        if isNew {
          var id := CommonUtils.RandomString(8, random, drawn);
          drawn := drawn + 8;
          config := config.(id := Some(id));
          config := config.(enable := Some(false));
        }
        updated := updated[Some(domain) := config];
        assert Ledger(updated, drawn) == Observe(before, obs[i], random);
        ObserveAllStep(start, obs, i, random);
        i := i + 1;
      }
      assert obs[..i] == obs;
    }

    /** `queryCloudCerts()`. `listing(key)` is what the Tencent listing
        produced for the key; the dispatch decides whether it is used. */
    method QueryCloudCerts(apiKeys: seq<CloudApiKey>, listing: CloudApiKey -> TencentCloudPlatformApi.Outcome)
      modifies this
      ensures apiKeys == [] ==> infos == old(infos) && drawn == old(drawn) && saves == old(saves)
      ensures apiKeys != [] ==>
                var after := ObserveAll(Ledger(IndexByDomain(old(infos)), old(drawn)),
                                        CloudObservations(apiKeys, listing), random);
                ListsExactly(infos, after.index) && drawn == after.drawn && saves == old(saves) + 1
    {
      if |apiKeys| == 0 {
        return;
      }
      var existingConfigMap := IndexByDomain(infos);
      ghost var start := Ledger(existingConfigMap, drawn);
      var k := 0;
      while k < |apiKeys|
        invariant 0 <= k <= |apiKeys|
        invariant infos == old(infos) && saves == old(saves)
        invariant Ledger(existingConfigMap, drawn) == ObserveAll(start, CloudObservations(apiKeys[..k], listing), random)
      {
        var apiKey := apiKeys[k];
        var certInfoList := CloudPlatformActionBase.GetCertInfoList(Some(apiKey), listing(apiKey));
        ghost var before := Ledger(existingConfigMap, drawn);
        existingConfigMap := RecordListing(existingConfigMap, apiKey, certInfoList);
        CloudObservationsStep(apiKeys, k, listing);
        ObserveAllAppend(start, CloudObservations(apiKeys[..k], listing), KeyObservations(apiKey, certInfoList), random);
        k := k + 1;
      }
      assert apiKeys[..k] == apiKeys;
      ObserveAllKeyed(start, CloudObservations(apiKeys, listing), random);
      infos := ListValues(existingConfigMap);
      saves := saves + 1;
    }

    /** The body of `queryCloudCerts`'s loop for one key: each listed entry
        patches the entry of its domain, or creates one. */
    method RecordListing(existingConfigMap: Index, apiKey: CloudApiKey, certInfoList: seq<PlatformSslCertInfo>)
      returns (updated: Index)
      modifies this
      ensures infos == old(infos) && saves == old(saves)
      ensures Ledger(updated, drawn)
              == ObserveAll(Ledger(existingConfigMap, old(drawn)), KeyObservations(apiKey, certInfoList), random)
    {
      updated := existingConfigMap;
      ghost var obs := KeyObservations(apiKey, certInfoList);
      var j := 0;
      while j < |certInfoList|
        invariant 0 <= j <= |certInfoList|
        invariant infos == old(infos) && saves == old(saves)
        invariant Ledger(updated, drawn) == ObserveAll(Ledger(existingConfigMap, old(drawn)), obs[..j], random)
      {
        var certInfo := certInfoList[j];
        var domain := certInfo.domain;
        ghost var before := Ledger(updated, drawn);
        var isNew := domain !in updated;
        var config := if isNew then NewInfo() else updated[domain];
        config := config.(domain := domain);
        config := config.(certId := certInfo.certId);
        config := config.(certStatus := certInfo.certStatus);
        config := config.(certRemark := certInfo.certRemark);
        config := config.(expireTimeAt := certInfo.expireTimeAt);
        config := config.(accountId := Some(apiKey.accountId));
        assert obs[j] == Observation(domain, CloudPatch(certInfo, apiKey.accountId));
        assert config == Apply(if isNew then NewInfo() else updated[domain], domain,
                               CloudPatch(certInfo, apiKey.accountId));
        if isNew {
          var id := CommonUtils.RandomString(8, random, drawn);
          drawn := drawn + 8;
          config := config.(id := Some(id));
          config := config.(enable := Some(false));
        }
        updated := updated[domain := config];
        assert Ledger(updated, drawn) == Observe(before, obs[j], random);
        ObserveAllStep(Ledger(existingConfigMap, old(drawn)), obs, j, random);
        j := j + 1;
      }
      assert obs[..j] == obs;
    }
  }
}
