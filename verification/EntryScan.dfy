/** The search over fetched entries: stages in order, what a failure keeps, and where every match ends up. */
module EntryScan {
  import opened Prelude
  import opened Domain
  import opened Matching
  import opened Findings

  // ----- the four stage loops

  method MatchLogEntryFingerprints(e: Entry, fps: seq<string>, mvs: MonitoredValues) returns (matched: seq<LogEntry>)
    ensures FingerprintMatches(e, fps, mvs) == Ok(matched)
    ensures exists at :: FingerprintsAt(at, e, fps, mvs, matched)
  {
    matched := [];
    ghost var az, usable, probe := mvs.fingerprints, Always<string>(), FingerprintProbe(e);
    for i := 0 to |mvs.fingerprints|
      invariant Rows(az[..i], fps, usable, probe) == Ok(matched)
    {
      ghost var before := matched;
      for j := 0 to |fps|
        invariant Row(az[i], fps[..j], usable, probe).Ok?
        invariant matched == before + Row(az[i], fps[..j], usable, probe).value
      {
        RowStep(az[i], fps, j, usable, probe);
        if fps[j] == mvs.fingerprints[i] {
          matched := matched + [LogEntry(mvs.fingerprints[i], ByFingerprint, "", "", fps[j], "", e.index,
              e.body.uuid, [], "")];
        }
      }
      assert fps[..|fps|] == fps;
      RowsStep(az, fps, i, usable, probe);
    }
    assert az[..|az|] == az;
    ghost var at := FingerprintsExactly(e, fps, mvs);
  }

  method MatchLogEntrySubjects(o: Oracle, e: Entry, subjects: seq<string>, mvs: MonitoredValues)
    returns (r: Result<seq<LogEntry>>)
    ensures r.Ok? <==> SubjectMatches(o, e, subjects, mvs).Ok?
    ensures r.Ok? ==> r == SubjectMatches(o, e, subjects, mvs)
    ensures r.Ok? <==> forall p :: p in mvs.subjects ==> o.compiles(p)
    ensures r.Ok? ==> exists at :: SubjectsAt(at, o, e, subjects, mvs, r.value)
  {
    ghost var at := SubjectsExactly(o, e, subjects, mvs);
    var matched := [];
    ghost var az, usable, probe := mvs.subjects, o.compiles, SubjectProbe(o, e);
    for i := 0 to |mvs.subjects|
      invariant Rows(az[..i], subjects, usable, probe) == Ok(matched)
    {
      ghost var before := matched;
      RowsStep(az, subjects, i, usable, probe);
      if !o.compiles(mvs.subjects[i]) {
        RowsErrStays(az, subjects, i + 1, usable, probe);
        return Err("error compiling regex");
      }
      for j := 0 to |subjects|
        invariant Row(az[i], subjects[..j], usable, probe).Ok?
        invariant matched == before + Row(az[i], subjects[..j], usable, probe).value
      {
        RowStep(az[i], subjects, j, usable, probe);
        if o.matches(mvs.subjects[i], subjects[j]) {
          matched := matched + [LogEntry(mvs.subjects[i], BySubject, "", "", "", subjects[j], e.index,
              e.body.uuid, [], "")];
        }
      }
      assert subjects[..|subjects|] == subjects;
    }
    assert az[..|az|] == az;
    return Ok(matched);
  }

  /** One monitored identity against all certificates of the entry. */
  method MatchOneIdentity(o: Oracle, e: Entry, certs: seq<Certificate>, id: CertIdentity)
    returns (r: Result<seq<LogEntry>>)
    ensures r.Ok? <==> Row(id, certs, Always(), CertProbe(o, e)).Ok?
    ensures r.Ok? ==> r == Row(id, certs, Always(), CertProbe(o, e))
  {
    var matched := [];
    ghost var usable, probe := Always<CertIdentity>(), CertProbe(o, e);
    for j := 0 to |certs|
      invariant Row(id, certs[..j], usable, probe) == Ok(matched)
    {
      RowStep(id, certs, j, usable, probe);
      var p := CertMatchesPolicy(o, certs[j], id);
      if p.Err? {
        RowErrStays(id, certs, j + 1, usable, probe);
        return Err("error with policy matching");
      } else if p.value.matched {
        matched := matched + [LogEntry(id.subject, ByCertSubject, p.value.subject, p.value.issuer,
                                       "", "", e.index, e.body.uuid, [], "")];
      }
    }
    assert certs[..|certs|] == certs;
    return Ok(matched);
  }

  method MatchLogEntryCertificateIdentities(o: Oracle, e: Entry, certs: seq<Certificate>, mvs: MonitoredValues)
    returns (r: Result<seq<LogEntry>>)
    ensures r.Ok? <==> CertMatches(o, e, certs, mvs).Ok?
    ensures r.Ok? ==> r == CertMatches(o, e, certs, mvs)
    ensures r.Ok? <==> forall id, cert :: id in mvs.certIdentities && cert in certs ==> CertUsable(o, cert, id)
    ensures r.Ok? ==> exists at :: CertsAt(at, o, e, certs, mvs, r.value)
  {
    CertsOkExactly(o, e, certs, mvs);
    var matched := [];
    ghost var az, usable, probe := mvs.certIdentities, Always<CertIdentity>(), CertProbe(o, e);
    for i := 0 to |mvs.certIdentities|
      invariant Rows(az[..i], certs, usable, probe) == Ok(matched)
    {
      RowsStep(az, certs, i, usable, probe);
      var row := MatchOneIdentity(o, e, certs, mvs.certIdentities[i]);
      if row.Err? {
        RowsErrStays(az, certs, i + 1, usable, probe);
        return row;
      }
      matched := matched + row.value;
    }
    assert az[..|az|] == az;
    ghost var at := CertsExactly(o, e, certs, mvs);
    return Ok(matched);
  }

  /** One matcher against all certificates of the entry. */
  method MatchOneMatcher(e: Entry, certs: seq<Certificate>, m: OidMatcher) returns (r: Result<seq<LogEntry>>)
    ensures r.Ok? <==> Row(m, certs, Always(), OidProbe(e)).Ok?
    ensures r.Ok? ==> r == Row(m, certs, Always(), OidProbe(e))
  {
    var matched := [];
    ghost var usable, probe := Always<OidMatcher>(), OidProbe(e);
    for j := 0 to |certs|
      invariant Row(m, certs[..j], usable, probe) == Ok(matched)
    {
      RowStep(m, certs, j, usable, probe);
      var p := OIDMatchesPolicy(certs[j], m);
      if p.Err? {
        RowErrStays(m, certs, j + 1, usable, probe);
        return Err("error with policy matching");
      }
      if p.value.Some? {
        matched := matched + [LogEntry(p.value.value, ByExtensionValue, "", "", "", "", e.index, e.body.uuid,
                                       m.id, p.value.value)];
      }
    }
    assert certs[..|certs|] == certs;
    return Ok(matched);
  }

  method MatchLogEntryOIDs(e: Entry, certs: seq<Certificate>, mvs: MonitoredValues) returns (r: Result<seq<LogEntry>>)
    ensures r.Ok? <==> OidMatches(e, certs, mvs).Ok?
    ensures r.Ok? ==> r == OidMatches(e, certs, mvs)
    ensures r.Ok? <==> forall m, cert :: m in mvs.oidMatchers && cert in certs ==> OidReadable(cert, m)
    ensures r.Ok? ==> exists at :: OidsAt(at, e, certs, mvs, r.value)
  {
    OidsOkExactly(e, certs, mvs);
    var matched := [];
    ghost var az, usable, probe := mvs.oidMatchers, Always<OidMatcher>(), OidProbe(e);
    for i := 0 to |mvs.oidMatchers|
      invariant Rows(az[..i], certs, usable, probe) == Ok(matched)
    {
      RowsStep(az, certs, i, usable, probe);
      var row := MatchOneMatcher(e, certs, mvs.oidMatchers[i]);
      if row.Err? {
        RowsErrStays(az, certs, i + 1, usable, probe);
        return row;
      }
      matched := matched + row.value;
    }
    assert az[..|az|] == az;
    ghost var at := OidsExactly(e, certs, mvs);
    return Ok(matched);
  }

  // ----- one entry

  datatype Disposition = Skipped | FailedAt(stage: Stage) | FullyMatched

  datatype Examined = Examined(matched: seq<LogEntry>, disposition: Disposition)

  function OrNone(r: Result<seq<LogEntry>>): seq<LogEntry> {
    if r.Ok? then r.value else []
  }

  function Examine(o: Oracle, mvs: MonitoredValues, e: Entry): Examined {
    match e.body.parse
    case BadVerifiers => Examined([], FailedAt(AtVerifiers))
    case BadIdentities => Examined([], FailedAt(AtIdentities))
    case Parsed(subjects, certs, fps) =>
      if !o.trusts(certs) then Examined([], Skipped)
      else
        var byFingerprint := OrNone(FingerprintMatches(e, fps, mvs));
        match SubjectMatches(o, e, subjects, mvs)
        case Err(_) => Examined(byFingerprint, FailedAt(AtSubjects))
        case Ok(bySubject) => match CertMatches(o, e, certs, mvs)
          case Err(_) => Examined(byFingerprint + bySubject, FailedAt(AtCertIdentities))
          case Ok(byCert) => match OidMatches(e, certs, mvs)
            case Err(_) => Examined(byFingerprint + bySubject + byCert, FailedAt(AtOids))
            case Ok(byOid) => Examined(byFingerprint + bySubject + byCert + byOid, FullyMatched)
  }

  predicate UnreadableExtension(certs: seq<Certificate>, id: seq<int>) {
    exists j :: 0 <= j < |certs| && GetExtension(certs[j].extensions, id).Err?
  }

  predicate HasIssuer(certs: seq<Certificate>) {
    exists j :: 0 <= j < |certs| && IssuerOf(certs[j]) != ""
  }

  predicate CertPatternsCompile(o: Oracle, mvs: MonitoredValues) {
    forall i :: 0 <= i < |mvs.certIdentities| ==>
      o.compiles(mvs.certIdentities[i].subject) && AllCompile(o, mvs.certIdentities[i].issuers)
  }

  predicate OidsReadable(mvs: MonitoredValues, certs: seq<Certificate>) {
    forall i :: 0 <= i < |mvs.oidMatchers| ==> !UnreadableExtension(certs, mvs.oidMatchers[i].id)
  }

  lemma SubjectsSucceed(o: Oracle, mvs: MonitoredValues, e: Entry, subjects: seq<string>)
    ensures SubjectMatches(o, e, subjects, mvs).Ok? <==> AllCompile(o, mvs.subjects)
  {
    RowsSucceedExactly(mvs.subjects, subjects, o.compiles, SubjectProbe(o, e));
  }

  lemma CertsSucceed(o: Oracle, mvs: MonitoredValues, e: Entry, certs: seq<Certificate>)
    ensures CertMatches(o, e, certs, mvs).Ok? <==> CertPatternsCompile(o, mvs) || !HasIssuer(certs)
  {
    var az, probe := mvs.certIdentities, CertProbe(o, e);
    RowsSucceedExactly(az, certs, Always(), probe);
    assert forall i, j :: 0 <= i < |az| && 0 <= j < |certs| ==>
        (probe(az[i], certs[j]).Ok? <==>
           (IssuerOf(certs[j]) == "" || (o.compiles(az[i].subject) && AllCompile(o, az[i].issuers))));
    if !CertPatternsCompile(o, mvs) && HasIssuer(certs) {
      var i :| 0 <= i < |az| && !(o.compiles(az[i].subject) && AllCompile(o, az[i].issuers));
      var j :| 0 <= j < |certs| && IssuerOf(certs[j]) != "";
      assert probe(az[i], certs[j]).Err?;
    }
  }

  lemma OidsSucceed(mvs: MonitoredValues, e: Entry, certs: seq<Certificate>)
    ensures OidMatches(e, certs, mvs).Ok? <==> OidsReadable(mvs, certs)
  {
    var az, probe := mvs.oidMatchers, OidProbe(e);
    RowsSucceedExactly(az, certs, Always(), probe);
    assert forall i, j :: 0 <= i < |az| && 0 <= j < |certs| ==>
        (probe(az[i], certs[j]).Ok? <==> GetExtension(certs[j].extensions, az[i].id).Ok?);
    if !OidsReadable(mvs, certs) {
      var i :| 0 <= i < |az| && UnreadableExtension(certs, az[i].id);
      var j :| 0 <= j < |certs| && GetExtension(certs[j].extensions, az[i].id).Err?;
      assert probe(az[i], certs[j]).Err?;
    }
  }

  /** Per-entry accounting: an entry is skipped, fails at its first bad stage, or is fully matched, and which
      of these it is follows from the entry, the patterns and the certificates alone. */
  lemma DispositionExactly(o: Oracle, mvs: MonitoredValues, e: Entry)
    ensures e.body.parse.BadVerifiers? <==> Examine(o, mvs, e).disposition == FailedAt(AtVerifiers)
    ensures e.body.parse.BadIdentities? <==> Examine(o, mvs, e).disposition == FailedAt(AtIdentities)
    ensures e.body.parse.Parsed? ==>
              var certs, d := e.body.parse.certs, Examine(o, mvs, e).disposition;
              && (d == Skipped <==> !o.trusts(certs))
              && (d == FailedAt(AtSubjects) <==> o.trusts(certs) && !AllCompile(o, mvs.subjects))
              && (d == FailedAt(AtCertIdentities) <==>
                    o.trusts(certs) && AllCompile(o, mvs.subjects) && HasIssuer(certs) && !CertPatternsCompile(o, mvs))
              && (d == FailedAt(AtOids) <==>
                    o.trusts(certs) && AllCompile(o, mvs.subjects)
                    && (CertPatternsCompile(o, mvs) || !HasIssuer(certs)) && !OidsReadable(mvs, certs))
              && (d == FullyMatched <==>
                    o.trusts(certs) && AllCompile(o, mvs.subjects)
                    && (CertPatternsCompile(o, mvs) || !HasIssuer(certs)) && OidsReadable(mvs, certs))
  {
    if e.body.parse.Parsed? {
      SubjectsSucceed(o, mvs, e, e.body.parse.subjects);
      CertsSucceed(o, mvs, e, e.body.parse.certs);
      OidsSucceed(mvs, e, e.body.parse.certs);
    }
  }

  lemma FourParts<T>(a: seq<T>, b: seq<T>, c: seq<T>, d: seq<T>)
    ensures var m := a + b + c + d;
            && m[..|a|] == a && m[|a|..|a| + |b|] == b
            && m[|a| + |b|..|a| + |b| + |c|] == c && m[|a| + |b| + |c|..] == d
  {
  }

  /** What a fully matched entry contributes: every matching pair of every stage, nothing else, stage by stage. */
  lemma FullyMatchedContents(o: Oracle, mvs: MonitoredValues, e: Entry)
    returns (f: seq<(nat, nat)>, s: seq<(nat, nat)>, c: seq<(nat, nat)>, x: seq<(nat, nat)>)
    requires Examine(o, mvs, e).disposition == FullyMatched
    ensures |Examine(o, mvs, e).matched| == |f| + |s| + |c| + |x|
    ensures var p, m := e.body.parse, Examine(o, mvs, e).matched;
            && Enumerates(mvs.fingerprints, p.fingerprints, FingerprintProbe(e), m[..|f|], f)
            && Enumerates(mvs.subjects, p.subjects, SubjectProbe(o, e), m[|f|..|f| + |s|], s)
            && Enumerates(mvs.certIdentities, p.certs, CertProbe(o, e), m[|f| + |s|..|f| + |s| + |c|], c)
            && Enumerates(mvs.oidMatchers, p.certs, OidProbe(e), m[|f| + |s| + |c|..], x)
  {
    var p, m := e.body.parse, Examine(o, mvs, e).matched;
    RowsSucceedExactly(mvs.fingerprints, p.fingerprints, Always(), FingerprintProbe(e));
    f := RowsEnumerate(mvs.fingerprints, p.fingerprints, Always(), FingerprintProbe(e));
    s := RowsEnumerate(mvs.subjects, p.subjects, o.compiles, SubjectProbe(o, e));
    c := RowsEnumerate(mvs.certIdentities, p.certs, Always(), CertProbe(o, e));
    x := RowsEnumerate(mvs.oidMatchers, p.certs, Always(), OidProbe(e));
    FourParts(FingerprintMatches(e, p.fingerprints, mvs).value, SubjectMatches(o, e, p.subjects, mvs).value,
              CertMatches(o, e, p.certs, mvs).value, OidMatches(e, p.certs, mvs).value);
  }

  /** What an entry contributes that is skipped or fails: the matching pairs of the stages before the failure. */
  lemma UnfinishedContents(o: Oracle, mvs: MonitoredValues, e: Entry)
    returns (f: seq<(nat, nat)>, s: seq<(nat, nat)>, c: seq<(nat, nat)>)
    requires Examine(o, mvs, e).disposition != FullyMatched
    ensures |Examine(o, mvs, e).matched| == |f| + |s| + |c|
    ensures var p, m, d := e.body.parse, Examine(o, mvs, e).matched, Examine(o, mvs, e).disposition;
            && (d in {Skipped, FailedAt(AtVerifiers), FailedAt(AtIdentities)} ==> f == [])
            && (d !in {FailedAt(AtCertIdentities), FailedAt(AtOids)} ==> s == [])
            && (d != FailedAt(AtOids) ==> c == [])
            && (d in {FailedAt(AtSubjects), FailedAt(AtCertIdentities), FailedAt(AtOids)} ==>
                  Enumerates(mvs.fingerprints, p.fingerprints, FingerprintProbe(e), m[..|f|], f))
            && (d in {FailedAt(AtCertIdentities), FailedAt(AtOids)} ==>
                  Enumerates(mvs.subjects, p.subjects, SubjectProbe(o, e), m[|f|..|f| + |s|], s))
            && (d == FailedAt(AtOids) ==>
                  Enumerates(mvs.certIdentities, p.certs, CertProbe(o, e), m[|f| + |s|..], c))
  {
    f, s, c := [], [], [];
    var p, d := e.body.parse, Examine(o, mvs, e).disposition;
    if d in {FailedAt(AtSubjects), FailedAt(AtCertIdentities), FailedAt(AtOids)} {
      RowsSucceedExactly(mvs.fingerprints, p.fingerprints, Always(), FingerprintProbe(e));
      f := RowsEnumerate(mvs.fingerprints, p.fingerprints, Always(), FingerprintProbe(e));
      if d != FailedAt(AtSubjects) {
        s := RowsEnumerate(mvs.subjects, p.subjects, o.compiles, SubjectProbe(o, e));
      }
      if d == FailedAt(AtOids) {
        c := RowsEnumerate(mvs.certIdentities, p.certs, Always(), CertProbe(o, e));
      }
      FourParts(FingerprintMatches(e, p.fingerprints, mvs).value, OrNone(SubjectMatches(o, e, p.subjects, mvs)),
                OrNone(CertMatches(o, e, p.certs, mvs)), []);
    }
  }

  // ----- many entries

  function FlatMap<R>(entries: seq<Entry>, f: Entry -> seq<R>): seq<R> {
    if entries == [] then [] else FlatMap(entries[..|entries| - 1], f) + f(entries[|entries| - 1])
  }

  function MatchedOf(o: Oracle, mvs: MonitoredValues): Entry -> seq<LogEntry> {
    (e: Entry) => Examine(o, mvs, e).matched
  }

  function FailedOf(o: Oracle, mvs: MonitoredValues): Entry -> seq<FailedEntry> {
    (e: Entry) =>
      var d := Examine(o, mvs, e).disposition;
      if d.FailedAt? then [FailedEntry(e.index, e.body.uuid, d.stage)] else []
  }

  function AllMatched(o: Oracle, mvs: MonitoredValues, entries: seq<Entry>): seq<LogEntry> {
    FlatMap(entries, MatchedOf(o, mvs))
  }

  function AllFailed(o: Oracle, mvs: MonitoredValues, entries: seq<Entry>): seq<FailedEntry> {
    FlatMap(entries, FailedOf(o, mvs))
  }

  method MatchedIndices(o: Oracle, logEntries: seq<Entry>, mvs: MonitoredValues)
    returns (r: Result<(seq<LogEntry>, seq<FailedEntry>)>)
    ensures r.Ok? <==> ValidValues(mvs)
    ensures r.Ok? ==> r.value == (AllMatched(o, mvs, logEntries), AllFailed(o, mvs, logEntries))
  {
    var valid := VerifyMonitoredValues(mvs);
    if !valid {
      return Err("invalid monitored values");
    }
    var matchedEntries: seq<LogEntry> := [];
    var failedEntries: seq<FailedEntry> := [];
    for k := 0 to |logEntries|
      invariant matchedEntries == AllMatched(o, mvs, logEntries[..k])
      invariant failedEntries == AllFailed(o, mvs, logEntries[..k])
    {
      assert logEntries[..k + 1][..k] == logEntries[..k];
      var matched, disposition := ExamineEntry(o, mvs, logEntries[k]);
      matchedEntries := matchedEntries + matched;
      if disposition.FailedAt? {
        failedEntries := failedEntries + [FailedEntry(logEntries[k].index, logEntries[k].body.uuid, disposition.stage)];
      }
    }
    assert logEntries[..|logEntries|] == logEntries;
    return Ok((matchedEntries, failedEntries));
  }

  /** The body of MatchedIndices' loop: a failing stage keeps the matches of the stages before it. */
  method ExamineEntry(o: Oracle, mvs: MonitoredValues, entry: Entry)
    returns (matched: seq<LogEntry>, disposition: Disposition)
    ensures Examined(matched, disposition) == Examine(o, mvs, entry)
  {
    matched := [];
    if entry.body.parse.BadVerifiers? {
      return matched, FailedAt(AtVerifiers);
    }
    if entry.body.parse.BadIdentities? {
      return matched, FailedAt(AtIdentities);
    }
    var Parsed(subjects, certs, fps) := entry.body.parse;
    if !o.trusts(certs) {
      return matched, Skipped;
    }
    matched := MatchLogEntryFingerprints(entry, fps, mvs);
    var bySubject := MatchLogEntrySubjects(o, entry, subjects, mvs);
    if bySubject.Err? {
      return matched, FailedAt(AtSubjects);
    }
    matched := matched + bySubject.value;
    var byCert := MatchLogEntryCertificateIdentities(o, entry, certs, mvs);
    if byCert.Err? {
      return matched, FailedAt(AtCertIdentities);
    }
    matched := matched + byCert.value;
    var byOid := MatchLogEntryOIDs(entry, certs, mvs);
    if byOid.Err? {
      return matched, FailedAt(AtOids);
    }
    return matched + byOid.value, FullyMatched;
  }

  lemma {:induction false} FlatMapDistributes<R>(a: seq<Entry>, b: seq<Entry>, f: Entry -> seq<R>)
    ensures FlatMap(a + b, f) == FlatMap(a, f) + FlatMap(b, f)
    decreases |b|
  {
    if b == [] {
      assert a + b == a;
    } else {
      var front := b[..|b| - 1];
      FlatMapDistributes(a, front, f);
      assert (a + b)[..|a + b| - 1] == a + front;
      assert (a + b)[|a + b| - 1] == b[|b| - 1];
    }
  }

  /** The search of a single entry. */
  lemma OneEntry(o: Oracle, mvs: MonitoredValues, e: Entry)
    ensures AllMatched(o, mvs, [e]) == Examine(o, mvs, e).matched
    ensures AllFailed(o, mvs, [e]) ==
            match Examine(o, mvs, e).disposition
            case FailedAt(stage) => [FailedEntry(e.index, e.body.uuid, stage)]
            case _ => []
  {
    FlatMapOfOne(e, MatchedOf(o, mvs));
    FlatMapOfOne(e, FailedOf(o, mvs));
  }

  lemma FlatMapOfOne<R>(e: Entry, f: Entry -> seq<R>)
    ensures FlatMap([e], f) == f(e)
  {
    assert [e][..0] == [];
    assert FlatMap([e][..0], f) == [];
  }

  /** Searching two stretches one after the other finds and fails what one search over both would. */
  lemma SearchDistributes(o: Oracle, mvs: MonitoredValues, a: seq<Entry>, b: seq<Entry>)
    ensures AllMatched(o, mvs, a + b) == AllMatched(o, mvs, a) + AllMatched(o, mvs, b)
    ensures AllFailed(o, mvs, a + b) == AllFailed(o, mvs, a) + AllFailed(o, mvs, b)
  {
    FlatMapDistributes(a, b, MatchedOf(o, mvs));
    FlatMapDistributes(a, b, FailedOf(o, mvs));
  }

  /** The entries with a given disposition. */
  function WithDisposition(o: Oracle, mvs: MonitoredValues, entries: seq<Entry>, d: Disposition): nat {
    if entries == [] then 0
    else WithDisposition(o, mvs, entries[..|entries| - 1], d)
         + if Examine(o, mvs, entries[|entries| - 1]).disposition == d then 1 else 0
  }

  /** Every entry is accounted for exactly once: skipped, failed or fully matched. */
  lemma {:induction false} EveryEntryAccountedFor(o: Oracle, mvs: MonitoredValues, entries: seq<Entry>)
    ensures |entries| == WithDisposition(o, mvs, entries, Skipped) + |AllFailed(o, mvs, entries)|
                         + WithDisposition(o, mvs, entries, FullyMatched)
    decreases |entries|
  {
    if entries != [] {
      EveryEntryAccountedFor(o, mvs, entries[..|entries| - 1]);
    }
  }

  lemma {:induction false} MatchesAreKept(o: Oracle, mvs: MonitoredValues, entries: seq<Entry>, k: nat, x: LogEntry)
    requires k < |entries| && x in Examine(o, mvs, entries[k]).matched
    ensures x in AllMatched(o, mvs, entries)
    decreases |entries|
  {
    if k < |entries| - 1 {
      MatchesAreKept(o, mvs, entries[..|entries| - 1], k, x);
    }
  }

  lemma {:induction false} FailuresAreKept(o: Oracle, mvs: MonitoredValues, entries: seq<Entry>, k: nat)
    requires k < |entries| && Examine(o, mvs, entries[k]).disposition.FailedAt?
    ensures FailedEntry(entries[k].index, entries[k].body.uuid, Examine(o, mvs, entries[k]).disposition.stage)
            in AllFailed(o, mvs, entries)
    decreases |entries|
  {
    if k < |entries| - 1 {
      FailuresAreKept(o, mvs, entries[..|entries| - 1], k);
    } else {
      assert FailedEntry(entries[k].index, entries[k].body.uuid, Examine(o, mvs, entries[k]).disposition.stage)
          in FailedOf(o, mvs)(entries[k]);
    }
  }

  lemma {:induction false} MatchesHaveEntries(o: Oracle, mvs: MonitoredValues, entries: seq<Entry>, x: LogEntry)
    returns (k: nat)
    requires x in AllMatched(o, mvs, entries)
    ensures k < |entries| && x in Examine(o, mvs, entries[k]).matched
    decreases |entries|
  {
    var n := |entries| - 1;
    if x in Examine(o, mvs, entries[n]).matched {
      k := n;
    } else {
      k := MatchesHaveEntries(o, mvs, entries[..n], x);
    }
  }
}
