/** What the search finds in an entry, said of the entry and the monitored values alone. */
module Carried {
  import opened Prelude
  import opened Domain
  import opened Matching
  import opened Findings
  import opened EntryScan

  // ----- an entry and what it carries

  /** The entry has this fingerprint, it is monitored, and x is the match. */
  ghost predicate CarriesFingerprint(mvs: MonitoredValues, e: Entry, x: LogEntry, v: string) {
    && e.body.parse.Parsed? && v in mvs.fingerprints && v in e.body.parse.fingerprints
    && x == LogEntry(v, ByFingerprint, "", "", v, "", e.index, e.body.uuid, [], "")
  }

  ghost predicate CarriesSubject(o: Oracle, mvs: MonitoredValues, e: Entry, x: LogEntry, v: string) {
    && e.body.parse.Parsed? && v in e.body.parse.subjects
    && exists p :: p in mvs.subjects && o.matches(p, v)
                   && x == LogEntry(p, BySubject, "", "", "", v, e.index, e.body.uuid, [], "")
  }

  ghost predicate CarriesCert(o: Oracle, mvs: MonitoredValues, e: Entry, x: LogEntry, v: string) {
    && e.body.parse.Parsed?
    && exists id, cert :: id in mvs.certIdentities && cert in e.body.parse.certs && ReportsCert(o, e, cert, id, x, v)
  }

  ghost predicate CarriesOid(mvs: MonitoredValues, e: Entry, x: LogEntry, v: string) {
    && e.body.parse.Parsed?
    && exists m, cert :: m in mvs.oidMatchers && cert in e.body.parse.certs && ReportsOid(e, cert, m, x, v)
  }

  /** x is a match of the entry, and v what it was matched on: a value that occurs in the entry. */
  ghost predicate Carries(o: Oracle, mvs: MonitoredValues, e: Entry, x: LogEntry, v: string) {
    || CarriesFingerprint(mvs, e, x, v) || CarriesSubject(o, mvs, e, x, v)
    || CarriesCert(o, mvs, e, x, v) || CarriesOid(mvs, e, x, v)
  }

  /** A stage's rows hold what some pair yields, and nothing else. */
  lemma RowsMembers<A(!new), B(!new)>(az: seq<A>, bs: seq<B>, usable: A -> bool, probe: Probe<A, B>, x: LogEntry)
    requires Rows(az, bs, usable, probe).Ok?
    ensures x in Rows(az, bs, usable, probe).value <==>
            exists a, b :: a in az && b in bs && probe(a, b) == Ok(Some(x))
    ensures forall a, b :: a in az && b in bs ==> probe(a, b).Ok?
  {
    RowsSucceedExactly(az, bs, usable, probe);
    var xs := Rows(az, bs, usable, probe).value;
    var at := RowsEnumerate(az, bs, usable, probe);
    if x in xs {
      var k :| 0 <= k < |xs| && xs[k] == x;
      assert HitsAt(az, bs, probe, at[k], xs[k]);
      assert az[at[k].0] in az && bs[at[k].1] in bs;
    }
    if a, b :| a in az && b in bs && probe(a, b) == Ok(Some(x)) {
      var i :| 0 <= i < |az| && az[i] == a;
      var j :| 0 <= j < |bs| && bs[j] == b;
      assert (i, j) in at;
      var k :| 0 <= k < |at| && at[k] == (i, j);
      assert HitsAt(az, bs, probe, at[k], xs[k]);
      assert x == xs[k];
    }
  }

  lemma FingerprintMembers(mvs: MonitoredValues, e: Entry, x: LogEntry)
    requires e.body.parse.Parsed?
    ensures FingerprintMatches(e, e.body.parse.fingerprints, mvs).Ok?
    ensures x in FingerprintMatches(e, e.body.parse.fingerprints, mvs).value <==>
            exists v :: CarriesFingerprint(mvs, e, x, v)
  {
    var az, fps, probe := mvs.fingerprints, e.body.parse.fingerprints, FingerprintProbe(e);
    RowsSucceedExactly(az, fps, Always(), probe);
    RowsMembers(az, fps, Always(), probe, x);
    if v: string :| CarriesFingerprint(mvs, e, x, v) {
      assert probe(v, v) == Ok(Some(x));
    }
    if a, f :| a in az && f in fps && probe(a, f) == Ok(Some(x)) {
      assert CarriesFingerprint(mvs, e, x, f);
    }
  }

  lemma SubjectMembers(o: Oracle, mvs: MonitoredValues, e: Entry, x: LogEntry)
    requires e.body.parse.Parsed? && SubjectMatches(o, e, e.body.parse.subjects, mvs).Ok?
    ensures x in SubjectMatches(o, e, e.body.parse.subjects, mvs).value <==> exists v :: CarriesSubject(o, mvs, e, x, v)
  {
    var az, subjects, probe := mvs.subjects, e.body.parse.subjects, SubjectProbe(o, e);
    RowsMembers(az, subjects, o.compiles, probe, x);
    if v: string :| CarriesSubject(o, mvs, e, x, v) {
      var p :| p in az && o.matches(p, v)
               && x == LogEntry(p, BySubject, "", "", "", v, e.index, e.body.uuid, [], "");
      assert probe(p, v) == Ok(Some(x));
    }
    if a, v :| a in az && v in subjects && probe(a, v) == Ok(Some(x)) {
      assert CarriesSubject(o, mvs, e, x, v);
    }
  }

  lemma CertMembers(o: Oracle, mvs: MonitoredValues, e: Entry, x: LogEntry)
    requires e.body.parse.Parsed? && CertMatches(o, e, e.body.parse.certs, mvs).Ok?
    ensures x in CertMatches(o, e, e.body.parse.certs, mvs).value <==> exists v :: CarriesCert(o, mvs, e, x, v)
  {
    var az, certs, probe := mvs.certIdentities, e.body.parse.certs, CertProbe(o, e);
    RowsMembers(az, certs, Always(), probe, x);
    if v: string :| CarriesCert(o, mvs, e, x, v) {
      var id, cert :| id in az && cert in certs && ReportsCert(o, e, cert, id, x, v);
      CertProbeExactly(o, e, cert, id, x);
      assert probe(id, cert) == Ok(Some(x));
    }
    if id, cert :| id in az && cert in certs && probe(id, cert) == Ok(Some(x)) {
      CertProbeExactly(o, e, cert, id, x);
      assert CarriesCert(o, mvs, e, x, x.certSubject);
    }
  }

  lemma OidMembers(mvs: MonitoredValues, e: Entry, x: LogEntry)
    requires e.body.parse.Parsed? && OidMatches(e, e.body.parse.certs, mvs).Ok?
    ensures x in OidMatches(e, e.body.parse.certs, mvs).value <==> exists v :: CarriesOid(mvs, e, x, v)
  {
    var az, certs, probe := mvs.oidMatchers, e.body.parse.certs, OidProbe(e);
    RowsMembers(az, certs, Always(), probe, x);
    if v: string :| CarriesOid(mvs, e, x, v) {
      var m, cert :| m in az && cert in certs && ReportsOid(e, cert, m, x, v);
      OidProbeExactly(e, cert, m);
      assert probe(m, cert) == Ok(Some(x));
    }
    if m, cert :| m in az && cert in certs && probe(m, cert) == Ok(Some(x)) {
      OidProbeExactly(e, cert, m);
      assert ReportsOid(e, cert, m, x, x.extensionValue);
      assert CarriesOid(mvs, e, x, x.extensionValue);
    }
  }

  /** Everything the search reports of an entry is carried by it. */
  lemma MatchedIsCarried(o: Oracle, mvs: MonitoredValues, e: Entry, x: LogEntry)
    requires x in Examine(o, mvs, e).matched
    ensures e.body.parse.Parsed? && o.trusts(e.body.parse.certs) && exists v :: Carries(o, mvs, e, x, v)
  {
    var p := e.body.parse;
    FingerprintMembers(mvs, e, x);
    if v: string :| CarriesFingerprint(mvs, e, x, v) {
      assert Carries(o, mvs, e, x, v);
    } else {
      SubjectMembers(o, mvs, e, x);
      if v: string :| CarriesSubject(o, mvs, e, x, v) {
        assert Carries(o, mvs, e, x, v);
      } else {
        CertMembers(o, mvs, e, x);
        if v: string :| CarriesCert(o, mvs, e, x, v) {
          assert Carries(o, mvs, e, x, v);
        } else {
          OidMembers(mvs, e, x);
          var v :| CarriesOid(mvs, e, x, v);
          assert Carries(o, mvs, e, x, v);
        }
      }
    }
  }

  /** And what a trusted entry carries is reported, unless its examination fails no later than at that stage. */
  lemma CarriedIsMatched(o: Oracle, mvs: MonitoredValues, e: Entry, x: LogEntry, v: string)
    requires e.body.parse.Parsed? && o.trusts(e.body.parse.certs)
    ensures var d, matched := Examine(o, mvs, e).disposition, Examine(o, mvs, e).matched;
            && (CarriesFingerprint(mvs, e, x, v) ==> x in matched)
            && (CarriesSubject(o, mvs, e, x, v) ==> x in matched || d == FailedAt(AtSubjects))
            && (CarriesCert(o, mvs, e, x, v) ==>
                  x in matched || d == FailedAt(AtSubjects) || d == FailedAt(AtCertIdentities))
            && (CarriesOid(mvs, e, x, v) ==> x in matched || d.FailedAt?)
  {
    FingerprintMembers(mvs, e, x);
    var p := e.body.parse;
    if SubjectMatches(o, e, p.subjects, mvs).Ok? {
      SubjectMembers(o, mvs, e, x);
      if CertMatches(o, e, p.certs, mvs).Ok? {
        CertMembers(o, mvs, e, x);
        if OidMatches(e, p.certs, mvs).Ok? {
          OidMembers(mvs, e, x);
        }
      }
    }
  }

  /** The fingerprints of an entry, in one sentence: a monitored one that the entry has, and no other, is reported. */
  lemma FingerprintIsMatched(o: Oracle, mvs: MonitoredValues, e: Entry, f: string)
    requires e.body.parse.Parsed? && o.trusts(e.body.parse.certs)
    ensures LogEntry(f, ByFingerprint, "", "", f, "", e.index, e.body.uuid, [], "") in Examine(o, mvs, e).matched <==>
            f in mvs.fingerprints && f in e.body.parse.fingerprints
  {
    var x := LogEntry(f, ByFingerprint, "", "", f, "", e.index, e.body.uuid, [], "");
    CarriedIsMatched(o, mvs, e, x, f);
    if x in Examine(o, mvs, e).matched {
      MatchedIsCarried(o, mvs, e, x);
    }
  }
}
