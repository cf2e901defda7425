/** Matching log entries against the monitored values: policies, the four match stages and their accounting. */
module Matching {
  import opened Prelude
  import opened Domain

  datatype CertIdentity = CertIdentity(subject: string, issuers: seq<string>)

  datatype OidMatcher = OidMatcher(id: seq<int>, values: seq<string>)

  datatype MonitoredValues = MonitoredValues(
    certIdentities: seq<CertIdentity>,
    fingerprints: seq<string>,
    subjects: seq<string>,
    oidMatchers: seq<OidMatcher>)

  /** Code that is not shown: the regular expression engine and certificate chain verification. */
  datatype Oracle = Oracle(
    compiles: string -> bool,
    matches: (string, string) -> bool,
    trusts: seq<Certificate> -> bool)

  datatype Kind = ByCertSubject | ByExtensionValue | ByFingerprint | BySubject

  datatype LogEntry = LogEntry(
    matchedIdentity: string, kind: Kind, certSubject: string, issuer: string, fingerprint: string,
    subject: string, index: int, uuid: string, oid: seq<int>, extensionValue: string)

  datatype Stage = AtVerifiers | AtIdentities | AtSubjects | AtCertIdentities | AtOids

  datatype FailedEntry = FailedEntry(index: int, uuid: string, stage: Stage)

  const OIDC_ISSUER: seq<int> := [1, 3, 6, 1, 4, 1, 57264, 1, 1]
  const OIDC_ISSUER_V2: seq<int> := [1, 3, 6, 1, 4, 1, 57264, 1, 8]

  // ----- validation of the monitored values

  predicate MonitoredValuesExist(mvs: MonitoredValues) {
    |mvs.certIdentities| > 0 || |mvs.fingerprints| > 0 || |mvs.oidMatchers| > 0 || |mvs.subjects| > 0
  }

  predicate AllNonEmpty(values: seq<string>) {
    forall k :: 0 <= k < |values| ==> values[k] != ""
  }

  predicate ValidCertIdentity(c: CertIdentity) {
    c.subject != "" && AllNonEmpty(c.issuers)
  }

  predicate ValidOidMatcher(m: OidMatcher) {
    m.id != [] && m.values != [] && AllNonEmpty(m.values)
  }

  predicate ValidValues(mvs: MonitoredValues) {
    && MonitoredValuesExist(mvs)
    && (forall k :: 0 <= k < |mvs.certIdentities| ==> ValidCertIdentity(mvs.certIdentities[k]))
    && AllNonEmpty(mvs.fingerprints) && AllNonEmpty(mvs.subjects)
    && (forall k :: 0 <= k < |mvs.oidMatchers| ==> ValidOidMatcher(mvs.oidMatchers[k]))
  }

  method AnyEmpty(values: seq<string>) returns (found: bool)
    ensures found <==> !AllNonEmpty(values)
  {
    for k := 0 to |values|
      invariant forall j :: 0 <= j < k ==> values[j] != ""
    {
      if |values[k]| == 0 {
        return true;
      }
    }
    return false;
  }

  method VerifyMonitoredValues(mvs: MonitoredValues) returns (ok: bool)
    ensures ok <==> ValidValues(mvs)
    ensures ok <==>
              && !(mvs.certIdentities == [] && mvs.fingerprints == [] && mvs.subjects == [] && mvs.oidMatchers == [])
              && (forall c :: c in mvs.certIdentities ==> c.subject != "" && "" !in c.issuers)
              && "" !in mvs.fingerprints && "" !in mvs.subjects
              && (forall m :: m in mvs.oidMatchers ==> m.id != [] && m.values != [] && "" !in m.values)
  {
    if !MonitoredValuesExist(mvs) {
      return false;
    }
    for k := 0 to |mvs.certIdentities|
      invariant forall j :: 0 <= j < k ==> ValidCertIdentity(mvs.certIdentities[j])
    {
      if |mvs.certIdentities[k].subject| == 0 {
        return false;
      }
      var empty := AnyEmpty(mvs.certIdentities[k].issuers);
      if empty {
        return false;
      }
    }
    var emptyFingerprint := AnyEmpty(mvs.fingerprints);
    var emptySubject := AnyEmpty(mvs.subjects);
    if emptyFingerprint || emptySubject {
      return false;
    }
    for k := 0 to |mvs.oidMatchers|
      invariant forall j :: 0 <= j < k ==> ValidOidMatcher(mvs.oidMatchers[j])
    {
      if |mvs.oidMatchers[k].id| == 0 || |mvs.oidMatchers[k].values| == 0 {
        return false;
      }
      var empty := AnyEmpty(mvs.oidMatchers[k].values);
      if empty {
        return false;
      }
    }
    return true;
  }

  // ----- certificate policies

  /** The first extension with the given identifier decides; none at all reads as the empty string. */
  function GetExtension(extensions: seq<Extension>, id: seq<int>): Result<string> {
    if extensions == [] then Ok("")
    else if extensions[0].id == id then extensions[0].decoded
    else GetExtension(extensions[1..], id)
  }

  function GetDeprecatedExtension(extensions: seq<Extension>, id: seq<int>): string {
    if extensions == [] then ""
    else if extensions[0].id == id then extensions[0].raw
    else GetDeprecatedExtension(extensions[1..], id)
  }

  /** The issuer a policy looks at: the new extension if it is readable and non-empty, else the old one's bytes. */
  function IssuerOf(cert: Certificate): string {
    var v2 := GetExtension(cert.extensions, OIDC_ISSUER_V2);
    if v2.Ok? && v2.value != "" then v2.value else GetDeprecatedExtension(cert.extensions, OIDC_ISSUER)
  }

  // ----- what the lookups yield, by positions in the extension list

  /** Position k holds the first extension with this identifier. */
  predicate FirstAt(extensions: seq<Extension>, id: seq<int>, k: int) {
    0 <= k < |extensions| && extensions[k].id == id && forall j :: 0 <= j < k ==> extensions[j].id != id
  }

  predicate Lacks(extensions: seq<Extension>, id: seq<int>) {
    forall j :: 0 <= j < |extensions| ==> extensions[j].id != id
  }

  lemma {:induction false} LookupsExactly(extensions: seq<Extension>, id: seq<int>)
    ensures Lacks(extensions, id) ==>
              GetExtension(extensions, id) == Ok("") && GetDeprecatedExtension(extensions, id) == ""
    ensures !Lacks(extensions, id) ==>
              exists k :: FirstAt(extensions, id, k)
                          && GetExtension(extensions, id) == extensions[k].decoded
                          && GetDeprecatedExtension(extensions, id) == extensions[k].raw
    decreases |extensions|
  {
    if extensions != [] {
      if extensions[0].id == id {
        assert FirstAt(extensions, id, 0);
      } else {
        var rest := extensions[1..];
        LookupsExactly(rest, id);
        assert forall j :: 0 < j < |extensions| ==> extensions[j] == rest[j - 1];
        if !Lacks(rest, id) {
          var k :| FirstAt(rest, id, k) && GetExtension(rest, id) == rest[k].decoded
                   && GetDeprecatedExtension(rest, id) == rest[k].raw;
          assert FirstAt(extensions, id, k + 1);
        }
      }
    }
  }

  lemma FirstAtIsUnique(extensions: seq<Extension>, id: seq<int>, k: int, l: int)
    requires FirstAt(extensions, id, k) && FirstAt(extensions, id, l)
    ensures k == l
  {
  }

  /** The first OIDC issuer (v2) extension decodes to this non-empty value. */
  ghost predicate NewIssuer(cert: Certificate, v: string) {
    v != "" && exists k :: FirstAt(cert.extensions, [1, 3, 6, 1, 4, 1, 57264, 1, 8], k)
                           && cert.extensions[k].decoded == Ok(v)
  }

  /** The first deprecated issuer extension holds these bytes, none reading as empty. */
  ghost predicate OldIssuer(cert: Certificate, v: string) {
    if Lacks(cert.extensions, [1, 3, 6, 1, 4, 1, 57264, 1, 1]) then v == ""
    else exists k :: FirstAt(cert.extensions, [1, 3, 6, 1, 4, 1, 57264, 1, 1], k) && cert.extensions[k].raw == v
  }

  /** The issuer a certificate names: the new extension decides if it can be read and is not empty. */
  ghost predicate NamesIssuer(cert: Certificate, v: string) {
    if exists w :: NewIssuer(cert, w) then NewIssuer(cert, v) else OldIssuer(cert, v)
  }

  lemma NewIssuerExactly(cert: Certificate, v: string)
    ensures NewIssuer(cert, v) <==> v != "" && GetExtension(cert.extensions, OIDC_ISSUER_V2) == Ok(v)
  {
    var xs, id := cert.extensions, [1, 3, 6, 1, 4, 1, 57264, 1, 8];
    LookupsExactly(xs, id);
    if !Lacks(xs, id) {
      var k :| FirstAt(xs, id, k) && GetExtension(xs, id) == xs[k].decoded;
      forall l | FirstAt(xs, id, l)
        ensures l == k
      {
        FirstAtIsUnique(xs, id, k, l);
      }
    }
  }

  lemma OldIssuerExactly(cert: Certificate, v: string)
    ensures OldIssuer(cert, v) <==> GetDeprecatedExtension(cert.extensions, OIDC_ISSUER) == v
  {
    var xs, id := cert.extensions, [1, 3, 6, 1, 4, 1, 57264, 1, 1];
    LookupsExactly(xs, id);
    if !Lacks(xs, id) {
      var k :| FirstAt(xs, id, k) && GetDeprecatedExtension(xs, id) == xs[k].raw;
      forall l | FirstAt(xs, id, l)
        ensures l == k
      {
        FirstAtIsUnique(xs, id, k, l);
      }
    }
  }

  /** Every certificate names exactly one issuer, possibly the empty one. */
  lemma IssuerExactly(cert: Certificate, v: string)
    ensures NamesIssuer(cert, v) <==> v == IssuerOf(cert)
  {
    var decoded := GetExtension(cert.extensions, OIDC_ISSUER_V2);
    NewIssuerExactly(cert, v);
    OldIssuerExactly(cert, v);
    if decoded.Ok? {
      NewIssuerExactly(cert, decoded.value);
    }
    forall w | NewIssuer(cert, w)
      ensures decoded == Ok(w) && w != ""
    {
      NewIssuerExactly(cert, w);
    }
  }

  datatype PolicyMatch = PolicyMatch(matched: bool, subject: string, issuer: string)

  ghost predicate LastMatch(o: Oracle, sans: seq<string>, pattern: string, k: int) {
    0 <= k < |sans| && o.matches(pattern, sans[k]) && forall j :: k < j < |sans| ==> !o.matches(pattern, sans[j])
  }

  predicate AnyMatches(o: Oracle, patterns: seq<string>, text: string) {
    exists k :: 0 <= k < |patterns| && o.matches(patterns[k], text)
  }

  predicate AllCompile(o: Oracle, patterns: seq<string>) {
    forall k :: 0 <= k < |patterns| ==> o.compiles(patterns[k])
  }

  /** The last alternative name the pattern matches; every name is tried. */
  method MatchSubject(o: Oracle, sans: seq<string>, pattern: string) returns (subjectMatches: bool, matchedSub: string)
    ensures subjectMatches <==> exists k :: 0 <= k < |sans| && o.matches(pattern, sans[k])
    ensures subjectMatches ==> exists k :: LastMatch(o, sans, pattern, k) && matchedSub == sans[k]
    ensures matchedSub == LastMatching(o, sans, pattern)
  {
    subjectMatches, matchedSub := false, "";
    for i := 0 to |sans|
      invariant matchedSub == LastMatching(o, sans[..i], pattern)
      invariant subjectMatches <==> exists k :: 0 <= k < i && o.matches(pattern, sans[k])
      invariant subjectMatches ==> exists k :: LastMatch(o, sans[..i], pattern, k) && matchedSub == sans[k]
    {
      assert sans[..i + 1][..i] == sans[..i];
      if o.matches(pattern, sans[i]) {
        subjectMatches := true;
        matchedSub := sans[i];
        assert LastMatch(o, sans[..i + 1], pattern, i);
      } else if subjectMatches {
        ghost var k :| LastMatch(o, sans[..i], pattern, k) && matchedSub == sans[k];
        assert LastMatch(o, sans[..i + 1], pattern, k);
      }
    }
    assert sans[..|sans|] == sans;
  }

  /** A certificate that names no issuer never matches and is never an error. Otherwise every pattern must
      compile, the subject is the last matching alternative name, and no issuer pattern means any issuer. */
  method CertMatchesPolicy(o: Oracle, cert: Certificate, id: CertIdentity) returns (r: Result<PolicyMatch>)
    ensures r == PolicyOf(o, cert, id)
    ensures exists issuer :: NamesIssuer(cert, issuer)
    ensures forall issuer :: NamesIssuer(cert, issuer) ==>
              && (r.Err? <==>
                    issuer != "" && !(o.compiles(id.subject) && forall p :: p in id.issuers ==> o.compiles(p)))
              && (r.Ok? ==>
                    (r.value.matched <==>
                       && issuer != ""
                       && (exists san :: san in cert.sans && o.matches(id.subject, san))
                       && (id.issuers == [] || exists p :: p in id.issuers && o.matches(p, issuer))))
              && (r.Ok? && r.value.matched ==> r.value.issuer == issuer)
    ensures r.Ok? && r.value.matched ==>
              exists k :: LastMatch(o, cert.sans, id.subject, k) && r.value.subject == cert.sans[k]
  {
    forall v
      ensures NamesIssuer(cert, v) <==> v == IssuerOf(cert)
    {
      IssuerExactly(cert, v);
    }
    assert NamesIssuer(cert, IssuerOf(cert));
    var issuer := IssuerOf(cert);
    if issuer == "" {
      return Ok(PolicyMatch(false, "", ""));
    }
    if !o.compiles(id.subject) {
      return Err("malformed subject regex");
    }
    var subjectMatches, matchedSub := MatchSubject(o, cert.sans, id.subject);
    if |id.issuers| == 0 {
      return Ok(PolicyMatch(subjectMatches, matchedSub, issuer));
    }
    var issuerMatches := false;
    for i := 0 to |id.issuers|
      invariant forall k :: 0 <= k < i ==> o.compiles(id.issuers[k])
      invariant issuerMatches <==> exists k :: 0 <= k < i && o.matches(id.issuers[k], issuer)
    {
      if !o.compiles(id.issuers[i]) {
        return Err("malformed issuer regex");
      }
      if o.matches(id.issuers[i], issuer) {
        issuerMatches := true;
      }
    }
    return Ok(PolicyMatch(subjectMatches && issuerMatches, matchedSub, issuer));
  }

  function LastMatching(o: Oracle, sans: seq<string>, pattern: string): string {
    if sans == [] then ""
    else if o.matches(pattern, sans[|sans| - 1]) then sans[|sans| - 1]
    else LastMatching(o, sans[..|sans| - 1], pattern)
  }

  function PolicyOf(o: Oracle, cert: Certificate, id: CertIdentity): Result<PolicyMatch> {
    var issuer := IssuerOf(cert);
    if issuer == "" then Ok(PolicyMatch(false, "", ""))
    else if !o.compiles(id.subject) then Err("malformed subject regex")
    else if !AllCompile(o, id.issuers) then Err("malformed issuer regex")
    else
      var subjectMatches := exists k :: 0 <= k < |cert.sans| && o.matches(id.subject, cert.sans[k]);
      Ok(PolicyMatch(subjectMatches && (id.issuers == [] || AnyMatches(o, id.issuers, issuer)),
                     LastMatching(o, cert.sans, id.subject), issuer))
  }

  lemma {:induction false} LastMatchingExactly(o: Oracle, sans: seq<string>, pattern: string)
    requires exists k :: 0 <= k < |sans| && o.matches(pattern, sans[k])
    ensures exists k :: LastMatch(o, sans, pattern, k) && LastMatching(o, sans, pattern) == sans[k]
    decreases |sans|
  {
    var n := |sans| - 1;
    if o.matches(pattern, sans[n]) {
      assert LastMatch(o, sans, pattern, n);
    } else {
      var front := sans[..n];
      var i :| 0 <= i < |sans| && o.matches(pattern, sans[i]);
      assert o.matches(pattern, front[i]);
      LastMatchingExactly(o, front, pattern);
      var k :| LastMatch(o, front, pattern, k) && LastMatching(o, front, pattern) == front[k];
      assert LastMatch(o, sans, pattern, k);
    }
  }

  /** The certificate names this issuer, and subject and issuer are as the monitored identity wants them. */
  ghost predicate CertHit(o: Oracle, cert: Certificate, id: CertIdentity, issuer: string) {
    && issuer != "" && NamesIssuer(cert, issuer)
    && (exists san :: san in cert.sans && o.matches(id.subject, san))
    && (id.issuers == [] || exists p :: p in id.issuers && o.matches(p, issuer))
  }

  lemma PolicyExactly(o: Oracle, cert: Certificate, id: CertIdentity)
    ensures NamesIssuer(cert, IssuerOf(cert))
    ensures PolicyOf(o, cert, id).Ok? ==>
              var p := PolicyOf(o, cert, id).value;
              && (p.matched <==> CertHit(o, cert, id, IssuerOf(cert)))
              && (p.matched ==>
                    && p.issuer == IssuerOf(cert)
                    && exists k :: LastMatch(o, cert.sans, id.subject, k) && p.subject == cert.sans[k])
    ensures forall issuer :: CertHit(o, cert, id, issuer) ==> issuer == IssuerOf(cert)
  {
    forall v
      ensures NamesIssuer(cert, v) <==> v == IssuerOf(cert)
    {
      IssuerExactly(cert, v);
    }
    if exists k :: 0 <= k < |cert.sans| && o.matches(id.subject, cert.sans[k]) {
      LastMatchingExactly(o, cert.sans, id.subject);
    }
    assert (exists san :: san in cert.sans && o.matches(id.subject, san)) <==>
           (exists k :: 0 <= k < |cert.sans| && o.matches(id.subject, cert.sans[k]));
    assert AnyMatches(o, id.issuers, IssuerOf(cert)) <==>
           (exists p :: p in id.issuers && o.matches(p, IssuerOf(cert)));
  }

  /** The value matched on, if the certificate has the extension with one of the values; values are not patterns. */
  function OidMatch(cert: Certificate, m: OidMatcher): Result<Option<string>> {
    match GetExtension(cert.extensions, m.id)
    case Err(e) => Err(e)
    case Ok(v) => Ok(if v != "" && v in m.values then Some(v) else None)
  }

  /** The first extension with the identifier has to decode, and to one of the values; none at all is no match. */
  lemma OidMatchExactly(cert: Certificate, m: OidMatcher)
    ensures Lacks(cert.extensions, m.id) ==> OidMatch(cert, m) == Ok(None)
    ensures forall k :: FirstAt(cert.extensions, m.id, k) ==>
              && (OidMatch(cert, m).Err? <==> cert.extensions[k].decoded.Err?)
              && (forall v :: OidMatch(cert, m) == Ok(Some(v)) <==>
                    v != "" && v in m.values && cert.extensions[k].decoded == Ok(v))
    ensures !Lacks(cert.extensions, m.id) ==> exists k :: FirstAt(cert.extensions, m.id, k)
  {
    LookupsExactly(cert.extensions, m.id);
    forall k, l | FirstAt(cert.extensions, m.id, k) && FirstAt(cert.extensions, m.id, l)
      ensures k == l
    {
      FirstAtIsUnique(cert.extensions, m.id, k, l);
    }
  }

  method OIDMatchesPolicy(cert: Certificate, m: OidMatcher) returns (r: Result<Option<string>>)
    ensures r == OidMatch(cert, m)
    ensures Lacks(cert.extensions, m.id) ==> r == Ok(None)
    ensures forall k :: FirstAt(cert.extensions, m.id, k) ==>
              && (r.Err? <==> cert.extensions[k].decoded.Err?)
              && (forall v :: r == Ok(Some(v)) <==> v != "" && v in m.values && cert.extensions[k].decoded == Ok(v))
  {
    OidMatchExactly(cert, m);
    var extValue := GetExtension(cert.extensions, m.id);
    if extValue.Err? {
      return Err(extValue.message);
    }
    if extValue.value == "" {
      return Ok(None);
    }
    for k := 0 to |m.values|
      invariant forall j :: 0 <= j < k ==> m.values[j] != extValue.value
    {
      if extValue.value == m.values[k] {
        return Ok(Some(extValue.value));
      }
    }
    return Ok(None);
  }

  // ----- the four stages: every monitored value against every value of the entry

  /** What one pair contributes: nothing, one log entry, or an error that ends the stage. */
  type Probe<!A, !B> = (A, B) -> Result<Option<LogEntry>>

  /** One monitored value against all values of the entry; a value that cannot be used at all fails first. */
  function Row<A, B>(a: A, bs: seq<B>, usable: A -> bool, probe: Probe<A, B>): Result<seq<LogEntry>>
    decreases |bs|
  {
    if !usable(a) then Err("unusable")
    else if bs == [] then Ok([])
    else match Row(a, bs[..|bs| - 1], usable, probe)
      case Err(e) => Err(e)
      case Ok(xs) => match probe(a, bs[|bs| - 1])
        case Err(e) => Err(e)
        case Ok(None) => Ok(xs)
        case Ok(Some(x)) => Ok(xs + [x])
  }

  function Rows<A, B>(az: seq<A>, bs: seq<B>, usable: A -> bool, probe: Probe<A, B>): Result<seq<LogEntry>>
    decreases |az|
  {
    if az == [] then Ok([])
    else match Rows(az[..|az| - 1], bs, usable, probe)
      case Err(e) => Err(e)
      case Ok(xs) => match Row(az[|az| - 1], bs, usable, probe)
        case Err(e) => Err(e)
        case Ok(ys) => Ok(xs + ys)
  }

  function Always<A>(): A -> bool {
    (a: A) => true
  }

  function FingerprintProbe(e: Entry): Probe<string, string> {
    (monitored: string, fp: string) =>
      Ok(if fp == monitored
         then Some(LogEntry(monitored, ByFingerprint, "", "", fp, "", e.index, e.body.uuid, [], "")) else None)
  }

  function SubjectProbe(o: Oracle, e: Entry): Probe<string, string> {
    (monitored: string, sub: string) =>
      Ok(if o.matches(monitored, sub)
         then Some(LogEntry(monitored, BySubject, "", "", "", sub, e.index, e.body.uuid, [], "")) else None)
  }

  function CertProbe(o: Oracle, e: Entry): Probe<CertIdentity, Certificate> {
    (id: CertIdentity, cert: Certificate) =>
      match PolicyOf(o, cert, id)
      case Err(m) => Err(m)
      case Ok(p) =>
        Ok(if p.matched
           then Some(LogEntry(id.subject, ByCertSubject, p.subject, p.issuer, "", "", e.index, e.body.uuid, [], ""))
           else None)
  }

  function OidProbe(e: Entry): Probe<OidMatcher, Certificate> {
    (m: OidMatcher, cert: Certificate) =>
      match OidMatch(cert, m)
      case Err(msg) => Err(msg)
      case Ok(None) => Ok(None)
      case Ok(Some(v)) => Ok(Some(LogEntry(v, ByExtensionValue, "", "", "", "", e.index, e.body.uuid, m.id, v)))
  }

  function FingerprintMatches(e: Entry, fps: seq<string>, mvs: MonitoredValues): Result<seq<LogEntry>> {
    Rows(mvs.fingerprints, fps, Always(), FingerprintProbe(e))
  }

  function SubjectMatches(o: Oracle, e: Entry, subjects: seq<string>, mvs: MonitoredValues): Result<seq<LogEntry>> {
    Rows(mvs.subjects, subjects, o.compiles, SubjectProbe(o, e))
  }

  function CertMatches(o: Oracle, e: Entry, certs: seq<Certificate>, mvs: MonitoredValues): Result<seq<LogEntry>> {
    Rows(mvs.certIdentities, certs, Always(), CertProbe(o, e))
  }

  function OidMatches(e: Entry, certs: seq<Certificate>, mvs: MonitoredValues): Result<seq<LogEntry>> {
    Rows(mvs.oidMatchers, certs, Always(), OidProbe(e))
  }

  lemma RowStep<A, B>(a: A, bs: seq<B>, j: nat, usable: A -> bool, probe: Probe<A, B>)
    requires j < |bs|
    ensures Row(a, bs[..j + 1], usable, probe) ==
            if !usable(a) then Err("unusable")
            else match Row(a, bs[..j], usable, probe)
              case Err(e) => Err(e)
              case Ok(xs) => match probe(a, bs[j])
                case Err(e) => Err(e)
                case Ok(None) => Ok(xs)
                case Ok(Some(x)) => Ok(xs + [x])
  {
    assert bs[..j + 1][..j] == bs[..j];
  }

  lemma RowsStep<A, B>(az: seq<A>, bs: seq<B>, i: nat, usable: A -> bool, probe: Probe<A, B>)
    requires i < |az|
    ensures Rows(az[..i + 1], bs, usable, probe) ==
            match Rows(az[..i], bs, usable, probe)
            case Err(e) => Err(e)
            case Ok(xs) => match Row(az[i], bs, usable, probe)
              case Err(e) => Err(e)
              case Ok(ys) => Ok(xs + ys)
  {
    assert az[..i + 1][..i] == az[..i];
  }

  lemma {:induction false} RowErrStays<A, B>(a: A, bs: seq<B>, j: nat, usable: A -> bool, probe: Probe<A, B>)
    requires j <= |bs| && Row(a, bs[..j], usable, probe).Err?
    ensures Row(a, bs, usable, probe).Err?
    decreases |bs| - j
  {
    if j < |bs| {
      RowStep(a, bs, j, usable, probe);
      RowErrStays(a, bs, j + 1, usable, probe);
    } else {
      assert bs[..j] == bs;
    }
  }

  lemma {:induction false} RowsErrStays<A, B>(az: seq<A>, bs: seq<B>, i: nat, usable: A -> bool, probe: Probe<A, B>)
    requires i <= |az| && Rows(az[..i], bs, usable, probe).Err?
    ensures Rows(az, bs, usable, probe).Err?
    decreases |az| - i
  {
    if i < |az| {
      RowsStep(az, bs, i, usable, probe);
      RowsErrStays(az, bs, i + 1, usable, probe);
    } else {
      assert az[..i] == az;
    }
  }

  /** A stage runs through when every monitored value is usable and no pair is an error. */
  ghost predicate NothingFails<A(!new), B(!new)>(az: seq<A>, bs: seq<B>, usable: A -> bool, probe: Probe<A, B>) {
    && (forall i :: 0 <= i < |az| ==> usable(az[i]))
    && (forall i, j :: 0 <= i < |az| && 0 <= j < |bs| ==> probe(az[i], bs[j]).Ok?)
  }

  lemma {:induction false} RowSucceedsExactly<A(!new), B(!new)>(a: A, bs: seq<B>, usable: A -> bool, probe: Probe<A, B>)
    ensures Row(a, bs, usable, probe).Ok? <==> NothingFails([a], bs, usable, probe)
    decreases |bs|
  {
    var n := |bs|;
    assert [a][0] == a;
    if n > 0 {
      RowSucceedsExactly(a, bs[..n - 1], usable, probe);
      assert NothingFails([a], bs, usable, probe) ==>
          NothingFails([a], bs[..n - 1], usable, probe) && probe([a][0], bs[n - 1]).Ok?;
      assert NothingFails([a], bs[..n - 1], usable, probe) && probe(a, bs[n - 1]).Ok? ==>
          NothingFails([a], bs, usable, probe) by {
        assert forall j :: 0 <= j < n - 1 ==> bs[..n - 1][j] == bs[j];
      }
    }
  }

  /** The stage's result is an error if and only if something in it fails. */
  lemma {:induction false} RowsSucceedExactly<A(!new), B(!new)>(az: seq<A>, bs: seq<B>, usable: A -> bool,
          probe: Probe<A, B>)
    ensures Rows(az, bs, usable, probe).Ok? <==> NothingFails(az, bs, usable, probe)
    decreases |az|
  {
    var n := |az|;
    if n > 0 {
      var front, last := az[..n - 1], [az[n - 1]];
      RowsSucceedExactly(front, bs, usable, probe);
      RowSucceedsExactly(az[n - 1], bs, usable, probe);
      if NothingFails(az, bs, usable, probe) {
        assert NothingFails(front, bs, usable, probe);
        assert last[0] == az[n - 1];
        assert NothingFails(last, bs, usable, probe);
      } else if NothingFails(front, bs, usable, probe) && NothingFails(last, bs, usable, probe) {
        assert last[0] == az[n - 1];
        assert forall i :: 0 <= i < n ==> az[i] == if i < n - 1 then front[i] else last[0];
        assert NothingFails(az, bs, usable, probe);
      }
    }
  }

  predicate HitsAt<A, B>(az: seq<A>, bs: seq<B>, probe: Probe<A, B>, at: (nat, nat), x: LogEntry) {
    at.0 < |az| && at.1 < |bs| && probe(az[at.0], bs[at.1]) == Ok(Some(x))
  }

  predicate Before(p: (nat, nat), q: (nat, nat)) {
    p.0 < q.0 || (p.0 == q.0 && p.1 < q.1)
  }

  /** `at` lists, in the order of the nested loops, exactly the pairs that match, and xs their entries. */
  ghost predicate Enumerates<A(!new), B(!new)>(az: seq<A>, bs: seq<B>, probe: Probe<A, B>, xs: seq<LogEntry>,
          at: seq<(nat, nat)>)
  {
    && |at| == |xs|
    && (forall k :: 0 <= k < |at| ==> HitsAt(az, bs, probe, at[k], xs[k]))
    && (forall k, l :: 0 <= k < l < |at| ==> Before(at[k], at[l]))
    && (forall i, j :: 0 <= i < |az| && 0 <= j < |bs| && probe(az[i], bs[j]) != Ok(None) ==> (i, j) in at)
  }

  /** The matches of the last of several monitored values. */
  ghost predicate EnumeratesLast<A(!new), B(!new)>(az: seq<A>, bs: seq<B>, probe: Probe<A, B>, xs: seq<LogEntry>,
          at: seq<(nat, nat)>)
    requires az != []
  {
    var n := |az| - 1;
    && |at| == |xs|
    && (forall k :: 0 <= k < |at| ==> at[k].0 == n && HitsAt(az, bs, probe, at[k], xs[k]))
    && (forall k, l :: 0 <= k < l < |at| ==> Before(at[k], at[l]))
    && (forall j :: 0 <= j < |bs| && probe(az[n], bs[j]) != Ok(None) ==> (n, j) in at)
  }

  lemma {:induction false} RowEnumerates<A(!new), B(!new)>(az: seq<A>, bs: seq<B>, usable: A -> bool,
          probe: Probe<A, B>)
    returns (at: seq<(nat, nat)>)
    requires az != [] && Row(az[|az| - 1], bs, usable, probe).Ok?
    ensures EnumeratesLast(az, bs, probe, Row(az[|az| - 1], bs, usable, probe).value, at)
    ensures forall k :: 0 <= k < |at| ==> at[k].1 < |bs|
    decreases |bs|
  {
    at := [];
    if bs != [] {
      var n, i := |bs| - 1, |az| - 1;
      var front := bs[..n];
      var before := RowEnumerates(az, front, usable, probe);
      at := before;
      if probe(az[i], bs[n]) != Ok(None) {
        at := before + [(i, n)];
        assert at[|before|] == (i, n);
      }
      forall j | 0 <= j < |bs| && probe(az[i], bs[j]) != Ok(None)
        ensures (i, j) in at
      {
        if j < n {
          assert front[j] == bs[j];
          assert (i, j) in before;
        }
      }
    }
  }

  lemma EnumerationsJoin<A(!new), B(!new)>(az: seq<A>, bs: seq<B>, probe: Probe<A, B>,
                                           xs: seq<LogEntry>, before: seq<(nat, nat)>, ys: seq<LogEntry>,
                                               row: seq<(nat, nat)>)
    requires az != [] && Enumerates(az[..|az| - 1], bs, probe, xs, before) && EnumeratesLast(az, bs, probe, ys, row)
    ensures Enumerates(az, bs, probe, xs + ys, before + row)
  {
    var n := |az| - 1;
    var at := before + row;
    forall k | 0 <= k < |at|
      ensures HitsAt(az, bs, probe, at[k], (xs + ys)[k])
    {
      if k < |before| {
        assert HitsAt(az[..n], bs, probe, before[k], xs[k]);
      }
    }
    forall k, l | 0 <= k < l < |at|
      ensures Before(at[k], at[l])
    {
      if k < |before| {
        assert HitsAt(az[..n], bs, probe, before[k], xs[k]);
      }
    }
    forall i, j | 0 <= i < |az| && 0 <= j < |bs| && probe(az[i], bs[j]) != Ok(None)
      ensures (i, j) in at
    {
      if i < n {
        assert az[..n][i] == az[i];
        assert (i, j) in before;
      } else {
        assert (n, j) in row;
      }
    }
  }

  /** A stage that succeeds reports exactly the matching pairs, each once, in the order of its loops. */
  lemma {:induction false} RowsEnumerate<A(!new), B(!new)>(az: seq<A>, bs: seq<B>, usable: A -> bool,
          probe: Probe<A, B>)
    returns (at: seq<(nat, nat)>)
    requires Rows(az, bs, usable, probe).Ok?
    ensures Enumerates(az, bs, probe, Rows(az, bs, usable, probe).value, at)
    decreases |az|
  {
    at := [];
    if az != [] {
      var n := |az| - 1;
      var before := RowsEnumerate(az[..n], bs, usable, probe);
      var row := RowEnumerates(az, bs, usable, probe);
      EnumerationsJoin(az, bs, probe, Rows(az[..n], bs, usable, probe).value, before,
                       Row(az[n], bs, usable, probe).value, row);
      at := before + row;
    }
  }
}
