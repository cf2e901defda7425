/** What each stage of the search reports, pair of positions by pair of positions. */
module Findings {
  import opened Prelude
  import opened Domain
  import opened Matching

  /** Positions in two lists, each pair once, in the order of two nested loops. */
  ghost predicate InLoopOrder(at: seq<(nat, nat)>, n: nat, m: nat) {
    && (forall k :: 0 <= k < |at| ==> at[k].0 < n && at[k].1 < m)
    && (forall k, l :: 0 <= k < l < |at| ==> at[k].0 < at[l].0 || (at[k].0 == at[l].0 && at[k].1 < at[l].1))
  }

  lemma EnumeratedPairs<A(!new), B(!new)>(az: seq<A>, bs: seq<B>, usable: A -> bool, probe: Probe<A, B>)
    returns (at: seq<(nat, nat)>)
    requires Rows(az, bs, usable, probe).Ok?
    ensures InLoopOrder(at, |az|, |bs|)
    ensures forall i: nat, j: nat :: i < |az| && j < |bs| ==>
              ((i, j) in at <==> probe(az[i], bs[j]) != Ok(None)) && probe(az[i], bs[j]).Ok?
    ensures |at| == |Rows(az, bs, usable, probe).value|
    ensures forall k :: 0 <= k < |at| ==>
              probe(az[at[k].0], bs[at[k].1]) == Ok(Some(Rows(az, bs, usable, probe).value[k]))
  {
    RowsSucceedExactly(az, bs, usable, probe);
    at := RowsEnumerate(az, bs, usable, probe);
    forall k | 0 <= k < |at|
      ensures HitsAt(az, bs, probe, at[k], Rows(az, bs, usable, probe).value[k])
    {
    }
    assert forall k, l :: 0 <= k < l < |at| ==> Before(at[k], at[l]);
  }

  /** A fingerprint is reported once for each pair of an equal monitored and entry fingerprint. */
  ghost predicate FingerprintsAt(at: seq<(nat, nat)>, e: Entry, fps: seq<string>, mvs: MonitoredValues,
                                 matched: seq<LogEntry>)
  {
    && |at| == |matched| && InLoopOrder(at, |mvs.fingerprints|, |fps|)
    && (forall i: nat, j: nat :: i < |mvs.fingerprints| && j < |fps| ==>
          ((i, j) in at <==> mvs.fingerprints[i] == fps[j]))
    && (forall k :: 0 <= k < |at| ==>
          var f := fps[at[k].1];
          matched[k] == LogEntry(f, ByFingerprint, "", "", f, "", e.index, e.body.uuid, [], ""))
  }

  lemma FingerprintsExactly(e: Entry, fps: seq<string>, mvs: MonitoredValues) returns (at: seq<(nat, nat)>)
    ensures FingerprintMatches(e, fps, mvs).Ok?
    ensures FingerprintsAt(at, e, fps, mvs, FingerprintMatches(e, fps, mvs).value)
  {
    RowsSucceedExactly(mvs.fingerprints, fps, Always(), FingerprintProbe(e));
    at := EnumeratedPairs(mvs.fingerprints, fps, Always(), FingerprintProbe(e));
  }

  /** A subject is reported once for each pair of a monitored pattern and an entry subject that it matches. */
  ghost predicate SubjectsAt(at: seq<(nat, nat)>, o: Oracle, e: Entry, subjects: seq<string>, mvs: MonitoredValues,
                             matched: seq<LogEntry>)
  {
    && |at| == |matched| && InLoopOrder(at, |mvs.subjects|, |subjects|)
    && (forall i: nat, j: nat :: i < |mvs.subjects| && j < |subjects| ==>
          ((i, j) in at <==> o.matches(mvs.subjects[i], subjects[j])))
    && (forall k :: 0 <= k < |at| ==>
          matched[k] ==
          LogEntry(mvs.subjects[at[k].0], BySubject, "", "", "", subjects[at[k].1], e.index, e.body.uuid, [], ""))
  }

  lemma SubjectsExactly(o: Oracle, e: Entry, subjects: seq<string>, mvs: MonitoredValues) returns (at: seq<(nat, nat)>)
    ensures SubjectMatches(o, e, subjects, mvs).Ok? <==> forall p :: p in mvs.subjects ==> o.compiles(p)
    ensures SubjectMatches(o, e, subjects, mvs).Ok? ==>
              SubjectsAt(at, o, e, subjects, mvs, SubjectMatches(o, e, subjects, mvs).value)
  {
    RowsSucceedExactly(mvs.subjects, subjects, o.compiles, SubjectProbe(o, e));
    at := [];
    if SubjectMatches(o, e, subjects, mvs).Ok? {
      at := EnumeratedPairs(mvs.subjects, subjects, o.compiles, SubjectProbe(o, e));
    }
  }

  /** The entry reported for a certificate that hits: its last matching name and its issuer. */
  ghost predicate ReportsCert(o: Oracle, e: Entry, cert: Certificate, id: CertIdentity, x: LogEntry, name: string) {
    exists issuer, k ::
      && CertHit(o, cert, id, issuer) && LastMatch(o, cert.sans, id.subject, k) && name == cert.sans[k]
      && x == LogEntry(id.subject, ByCertSubject, name, issuer, "", "", e.index, e.body.uuid, [], "")
  }

  /** The certificate is as the monitored identity wants it. */
  ghost predicate CertHits(o: Oracle, cert: Certificate, id: CertIdentity) {
    exists issuer :: CertHit(o, cert, id, issuer)
  }

  lemma CertProbeHits(o: Oracle, e: Entry, cert: Certificate, id: CertIdentity)
    requires CertProbe(o, e)(id, cert).Ok?
    ensures CertProbe(o, e)(id, cert) != Ok(None) <==> CertHits(o, cert, id)
  {
    PolicyExactly(o, cert, id);
    assert PolicyOf(o, cert, id).value.matched ==> CertHit(o, cert, id, PolicyOf(o, cert, id).value.issuer);
  }

  lemma CertProbeExactly(o: Oracle, e: Entry, cert: Certificate, id: CertIdentity, x: LogEntry)
    requires CertProbe(o, e)(id, cert).Ok?
    ensures CertProbe(o, e)(id, cert) == Ok(Some(x)) <==> ReportsCert(o, e, cert, id, x, x.certSubject)
  {
    PolicyExactly(o, cert, id);
    var p := PolicyOf(o, cert, id).value;
    if p.matched {
      var k :| LastMatch(o, cert.sans, id.subject, k) && p.subject == cert.sans[k];
      assert CertHit(o, cert, id, p.issuer);
      var y := LogEntry(id.subject, ByCertSubject, p.subject, p.issuer, "", "", e.index, e.body.uuid, [], "");
      assert CertProbe(o, e)(id, cert) == Ok(Some(y));
      assert ReportsCert(o, e, cert, id, y, p.subject);
      if ReportsCert(o, e, cert, id, x, x.certSubject) {
        var issuer, l :| CertHit(o, cert, id, issuer) && LastMatch(o, cert.sans, id.subject, l)
                         && x == LogEntry(id.subject, ByCertSubject, cert.sans[l], issuer, "", "", e.index,
                                          e.body.uuid, [], "");
        assert k == l;
      }
    }
  }

  /** A certificate identity is reported once for each pair of it and a certificate that hits. */
  ghost predicate CertsAt(at: seq<(nat, nat)>, o: Oracle, e: Entry, certs: seq<Certificate>, mvs: MonitoredValues,
                          matched: seq<LogEntry>)
  {
    && |at| == |matched| && InLoopOrder(at, |mvs.certIdentities|, |certs|)
    && (forall i: nat, j: nat :: i < |mvs.certIdentities| && j < |certs| ==>
          ((i, j) in at <==> CertHits(o, certs[j], mvs.certIdentities[i])))
    && (forall k :: 0 <= k < |at| ==>
          ReportsCert(o, e, certs[at[k].1], mvs.certIdentities[at[k].0], matched[k], matched[k].certSubject))
  }

  /** No pattern of the identity is looked at for a certificate without an issuer. */
  ghost predicate CertUsable(o: Oracle, cert: Certificate, id: CertIdentity) {
    NamesIssuer(cert, "") || (o.compiles(id.subject) && forall p :: p in id.issuers ==> o.compiles(p))
  }

  lemma CertUsableExactly(o: Oracle, e: Entry, cert: Certificate, id: CertIdentity)
    ensures CertProbe(o, e)(id, cert).Ok? <==> CertUsable(o, cert, id)
  {
    IssuerExactly(cert, "");
    assert AllCompile(o, id.issuers) <==> forall p :: p in id.issuers ==> o.compiles(p);
  }

  lemma CertsOkExactly(o: Oracle, e: Entry, certs: seq<Certificate>, mvs: MonitoredValues)
    ensures CertMatches(o, e, certs, mvs).Ok? <==>
            forall id, cert :: id in mvs.certIdentities && cert in certs ==> CertUsable(o, cert, id)
  {
    var az, probe := mvs.certIdentities, CertProbe(o, e);
    RowsSucceedExactly(az, certs, Always(), probe);
    forall i, j | 0 <= i < |az| && 0 <= j < |certs|
      ensures probe(az[i], certs[j]).Ok? <==> CertUsable(o, certs[j], az[i])
    {
      CertUsableExactly(o, e, certs[j], az[i]);
    }
  }

  lemma CertsExactly(o: Oracle, e: Entry, certs: seq<Certificate>, mvs: MonitoredValues) returns (at: seq<(nat, nat)>)
    requires CertMatches(o, e, certs, mvs).Ok?
    ensures CertsAt(at, o, e, certs, mvs, CertMatches(o, e, certs, mvs).value)
  {
    var az, probe, matched := mvs.certIdentities, CertProbe(o, e), CertMatches(o, e, certs, mvs).value;
    at := EnumeratedPairs(az, certs, Always(), probe);
    forall i: nat, j: nat | i < |az| && j < |certs|
      ensures (i, j) in at <==> CertHits(o, certs[j], az[i])
    {
      CertProbeHits(o, e, certs[j], az[i]);
    }
    forall k | 0 <= k < |at|
      ensures ReportsCert(o, e, certs[at[k].1], az[at[k].0], matched[k], matched[k].certSubject)
    {
      CertProbeExactly(o, e, certs[at[k].1], az[at[k].0], matched[k]);
    }
  }

  /** The first extension with the matcher's identifier decodes to this value, which is one of the matcher's. */
  ghost predicate OidHit(cert: Certificate, m: OidMatcher, v: string) {
    v != "" && v in m.values && exists k :: FirstAt(cert.extensions, m.id, k) && cert.extensions[k].decoded == Ok(v)
  }

  ghost predicate OidHits(cert: Certificate, m: OidMatcher) {
    exists v :: OidHit(cert, m, v)
  }

  /** The entry reported for an extension that hits. */
  ghost predicate ReportsOid(e: Entry, cert: Certificate, m: OidMatcher, x: LogEntry, v: string) {
    OidHit(cert, m, v) && x == LogEntry(v, ByExtensionValue, "", "", "", "", e.index, e.body.uuid, m.id, v)
  }

  lemma OidProbeExactly(e: Entry, cert: Certificate, m: OidMatcher)
    requires OidProbe(e)(m, cert).Ok?
    ensures forall x: LogEntry :: OidProbe(e)(m, cert) == Ok(Some(x)) <==> ReportsOid(e, cert, m, x, x.extensionValue)
    ensures OidProbe(e)(m, cert) != Ok(None) <==> OidHits(cert, m)
  {
    OidMatchExactly(cert, m);
    forall v
      ensures OidHit(cert, m, v) <==> OidMatch(cert, m) == Ok(Some(v))
    {
      if OidMatch(cert, m) == Ok(Some(v)) {
        var k :| FirstAt(cert.extensions, m.id, k);
        assert OidHit(cert, m, v);
      }
    }
    if OidMatch(cert, m) != Ok(None) {
      assert OidHit(cert, m, OidMatch(cert, m).value.value);
    }
  }

  /** An extension value is reported once for each pair of a matcher and a certificate that hits. */
  ghost predicate OidsAt(at: seq<(nat, nat)>, e: Entry, certs: seq<Certificate>, mvs: MonitoredValues,
                         matched: seq<LogEntry>)
  {
    && |at| == |matched| && InLoopOrder(at, |mvs.oidMatchers|, |certs|)
    && (forall i: nat, j: nat :: i < |mvs.oidMatchers| && j < |certs| ==>
          ((i, j) in at <==> OidHits(certs[j], mvs.oidMatchers[i])))
    && (forall k :: 0 <= k < |at| ==>
          ReportsOid(e, certs[at[k].1], mvs.oidMatchers[at[k].0], matched[k], matched[k].extensionValue))
  }

  /** The first extension with the identifier, if there is one, decodes. */
  ghost predicate OidReadable(cert: Certificate, m: OidMatcher) {
    forall k :: FirstAt(cert.extensions, m.id, k) ==> cert.extensions[k].decoded.Ok?
  }

  lemma OidsOkExactly(e: Entry, certs: seq<Certificate>, mvs: MonitoredValues)
    ensures OidMatches(e, certs, mvs).Ok? <==>
            forall m, cert :: m in mvs.oidMatchers && cert in certs ==> OidReadable(cert, m)
  {
    var az, probe := mvs.oidMatchers, OidProbe(e);
    RowsSucceedExactly(az, certs, Always(), probe);
    forall i, j | 0 <= i < |az| && 0 <= j < |certs|
      ensures probe(az[i], certs[j]).Ok? <==> OidReadable(certs[j], az[i])
    {
      OidMatchExactly(certs[j], az[i]);
    }
  }

  lemma OidsExactly(e: Entry, certs: seq<Certificate>, mvs: MonitoredValues) returns (at: seq<(nat, nat)>)
    requires OidMatches(e, certs, mvs).Ok?
    ensures OidsAt(at, e, certs, mvs, OidMatches(e, certs, mvs).value)
  {
    var az, probe, matched := mvs.oidMatchers, OidProbe(e), OidMatches(e, certs, mvs).value;
    at := EnumeratedPairs(az, certs, Always(), probe);
    forall i: nat, j: nat | i < |az| && j < |certs|
      ensures (i, j) in at <==> OidHits(certs[j], az[i])
    {
      OidProbeExactly(e, certs[j], az[i]);
    }
    forall k | 0 <= k < |at|
      ensures ReportsOid(e, certs[at[k].1], az[at[k].0], matched[k], matched[k].extensionValue)
    {
      OidProbeExactly(e, certs[at[k].1], az[at[k].0]);
    }
  }
}
