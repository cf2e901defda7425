/** Grouping the matches by identity for notification, without losing any. */
module Grouping {
  import opened Prelude
  import opened Domain
  import opened Matching
  import opened EntryScan
  import opened Carried

  datatype Group = Group(identity: string, entries: seq<LogEntry>)

  // ----- the identities list

  function Subjects(ids: seq<CertIdentity>): seq<string> {
    if ids == [] then [] else Subjects(ids[..|ids| - 1]) + [ids[|ids| - 1].subject] + ids[|ids| - 1].issuers
  }

  function Values(matchers: seq<OidMatcher>): seq<string> {
    if matchers == [] then [] else Values(matchers[..|matchers| - 1]) + matchers[|matchers| - 1].values
  }

  function IdentitiesList(mvs: MonitoredValues): seq<string> {
    Subjects(mvs.certIdentities) + mvs.fingerprints + mvs.subjects + Values(mvs.oidMatchers)
  }

  /** What is listed: subject and issuer patterns, fingerprints, subject patterns and extension values. */
  method CreateIdentitiesList(mvs: MonitoredValues) returns (identities: seq<string>)
    ensures identities == IdentitiesList(mvs)
    ensures identities == Subjects(mvs.certIdentities) + mvs.fingerprints + mvs.subjects + Values(mvs.oidMatchers)
    ensures forall v :: v in identities <==>
              || (exists c :: c in mvs.certIdentities && (v == c.subject || v in c.issuers))
              || v in mvs.fingerprints || v in mvs.subjects
              || (exists m :: m in mvs.oidMatchers && v in m.values)
  {
    forall v {
      ListedExactly(mvs, v);
    }
    identities := [];
    for k := 0 to |mvs.certIdentities|
      invariant identities == Subjects(mvs.certIdentities[..k])
    {
      assert mvs.certIdentities[..k + 1][..k] == mvs.certIdentities[..k];
      identities := identities + [mvs.certIdentities[k].subject];
      identities := identities + mvs.certIdentities[k].issuers;
    }
    assert mvs.certIdentities[..|mvs.certIdentities|] == mvs.certIdentities;
    identities := identities + mvs.fingerprints;
    identities := identities + mvs.subjects;
    ghost var front := identities;
    for k := 0 to |mvs.oidMatchers|
      invariant identities == front + Values(mvs.oidMatchers[..k])
    {
      assert mvs.oidMatchers[..k + 1][..k] == mvs.oidMatchers[..k];
      identities := identities + mvs.oidMatchers[k].values;
    }
    assert mvs.oidMatchers[..|mvs.oidMatchers|] == mvs.oidMatchers;
  }

  lemma {:induction false} SubjectsHold(ids: seq<CertIdentity>, v: string)
    ensures v in Subjects(ids) <==> exists c :: c in ids && (v == c.subject || v in c.issuers)
    decreases |ids|
  {
    if ids != [] {
      SubjectsHold(ids[..|ids| - 1], v);
      assert ids == ids[..|ids| - 1] + [ids[|ids| - 1]];
    }
  }

  /** Each subject pattern is followed by its own issuer patterns, in the order of the identities. */
  lemma {:induction false} SubjectsInOrder(a: seq<CertIdentity>, c: CertIdentity, b: seq<CertIdentity>)
    ensures Subjects(a + [c] + b) == Subjects(a) + ([c.subject] + c.issuers) + Subjects(b)
    decreases |b|
  {
    var all := a + [c] + b;
    if b == [] {
      assert all[..|all| - 1] == a;
    } else {
      assert all[..|all| - 1] == a + [c] + b[..|b| - 1] && all[|all| - 1] == b[|b| - 1];
      SubjectsInOrder(a, c, b[..|b| - 1]);
    }
  }

  lemma {:induction false} ValuesInOrder(a: seq<OidMatcher>, m: OidMatcher, b: seq<OidMatcher>)
    ensures Values(a + [m] + b) == Values(a) + m.values + Values(b)
    decreases |b|
  {
    var all := a + [m] + b;
    if b == [] {
      assert all[..|all| - 1] == a;
    } else {
      assert all[..|all| - 1] == a + [m] + b[..|b| - 1] && all[|all| - 1] == b[|b| - 1];
      ValuesInOrder(a, m, b[..|b| - 1]);
    }
  }

  lemma {:induction false} ValuesHold(matchers: seq<OidMatcher>, v: string)
    ensures v in Values(matchers) <==> exists m :: m in matchers && v in m.values
    decreases |matchers|
  {
    if matchers != [] {
      ValuesHold(matchers[..|matchers| - 1], v);
      assert matchers == matchers[..|matchers| - 1] + [matchers[|matchers| - 1]];
    }
  }

  lemma ListedExactly(mvs: MonitoredValues, v: string)
    ensures v in IdentitiesList(mvs) <==>
              || (exists c :: c in mvs.certIdentities && (v == c.subject || v in c.issuers))
              || v in mvs.fingerprints || v in mvs.subjects
              || (exists m :: m in mvs.oidMatchers && v in m.values)
  {
    SubjectsHold(mvs.certIdentities, v);
    ValuesHold(mvs.oidMatchers, v);
  }

  // ----- the groups

  function KeyOf(x: LogEntry): string {
    match x.kind
    case ByCertSubject => x.certSubject
    case ByExtensionValue => x.extensionValue
    case ByFingerprint => x.fingerprint
    case BySubject => x.subject
  }

  /** The entries with a known identity, in input order. */
  function Known(entries: seq<LogEntry>, identities: seq<string>): seq<LogEntry> {
    if entries == [] then []
    else
      var x := entries[|entries| - 1];
      Known(entries[..|entries| - 1], identities) + if x.matchedIdentity in identities then [x] else []
  }

  /** The entries of one group, in input order. */
  function OfKey(entries: seq<LogEntry>, key: string): seq<LogEntry> {
    if entries == [] then []
    else
      var x := entries[|entries| - 1];
      OfKey(entries[..|entries| - 1], key) + if KeyOf(x) == key then [x] else []
  }

  function Keys(entries: seq<LogEntry>): set<string> {
    set x | x in entries :: KeyOf(x)
  }

  predicate HasGroup(groups: seq<Group>, key: string) {
    exists i :: 0 <= i < |groups| && groups[i].identity == key
  }

  ghost predicate IsGrouping(groups: seq<Group>, entries: seq<LogEntry>) {
    && (forall i, j :: 0 <= i < j < |groups| ==> groups[i].identity != groups[j].identity)
    && (forall i :: 0 <= i < |groups| ==> groups[i].entries == OfKey(entries, groups[i].identity))
    && (forall i :: 0 <= i < |groups| ==> groups[i].entries != [])
    && (forall x :: x in entries ==> HasGroup(groups, KeyOf(x)))
  }

  lemma {:induction false} OfKeyMembers(entries: seq<LogEntry>, key: string)
    ensures OfKey(entries, key) != [] <==> key in Keys(entries)
    ensures forall x :: x in OfKey(entries, key) <==> x in entries && KeyOf(x) == key
    decreases |entries|
  {
    if entries != [] {
      var front, last := entries[..|entries| - 1], entries[|entries| - 1];
      OfKeyMembers(front, key);
      assert entries == front + [last];
      if key in Keys(entries) {
        var x :| x in entries && KeyOf(x) == key;
        assert x in front ==> KeyOf(x) in Keys(front);
      }
    }
  }

  /** The group holds the entries at these positions, in input order: those with a listed identity and its key. */
  ghost predicate Selects(at: seq<nat>, group: Group, entries: seq<LogEntry>, identities: seq<string>) {
    && |at| == |group.entries|
    && (forall k, l :: 0 <= k < l < |at| ==> at[k] < at[l])
    && (forall k :: 0 <= k < |at| ==> at[k] < |entries| && entries[at[k]] == group.entries[k])
    && (forall x :: x in group.entries ==> x.matchedIdentity in identities && KeyOf(x) == group.identity)
    && (forall i: nat {:trigger i in at} :: i < |entries| ==>
          entries[i].matchedIdentity in identities && KeyOf(entries[i]) == group.identity ==> i in at)
  }

  lemma SelectsOneMore(at: seq<nat>, xs: seq<LogEntry>, entries: seq<LogEntry>, x: LogEntry,
                       identities: seq<string>, key: string)
    requires Selects(at, Group(key, xs), entries, identities)
    requires x.matchedIdentity in identities && KeyOf(x) == key
    ensures Selects(at + [|entries|], Group(key, xs + [x]), entries + [x], identities)
  {
    var all := entries + [x];
    assert forall i: nat :: i < |entries| ==> all[i] == entries[i];
    forall i: nat | i < |all|
      ensures i in at + [|entries|] <==> i in at || i == |entries|
    {
    }
  }

  lemma SelectsNoMore(at: seq<nat>, xs: seq<LogEntry>, entries: seq<LogEntry>, x: LogEntry,
                      identities: seq<string>, key: string)
    requires Selects(at, Group(key, xs), entries, identities)
    requires !(x.matchedIdentity in identities && KeyOf(x) == key)
    ensures Selects(at, Group(key, xs), entries + [x], identities)
  {
    var all := entries + [x];
    assert forall i: nat :: i < |entries| ==> all[i] == entries[i];
  }

  lemma KeptOneMore(entries: seq<LogEntry>, x: LogEntry, identities: seq<string>, key: string)
    ensures var xs := OfKey(Known(entries, identities), key);
            OfKey(Known(entries + [x], identities), key) ==
            if x.matchedIdentity in identities && KeyOf(x) == key then xs + [x] else xs
  {
    assert (entries + [x])[..|entries|] == entries;
    var known := Known(entries, identities);
    assert (known + [x])[..|known|] == known;
    assert known + [] == known;
  }

  lemma {:induction false} GroupSelects(entries: seq<LogEntry>, identities: seq<string>, key: string)
    ensures exists at :: Selects(at, Group(key, OfKey(Known(entries, identities), key)), entries, identities)
    decreases |entries|
  {
    if entries == [] {
      var xs := OfKey(Known(entries, identities), key);
      assert xs == [];
      assert Selects([], Group(key, xs), entries, identities);
    } else {
      GroupSelects(entries[..|entries| - 1], identities, key);
      SelectionGrows(entries, identities, key);
    }
  }

  lemma SelectionGrows(entries: seq<LogEntry>, identities: seq<string>, key: string)
    requires entries != []
    requires var front := entries[..|entries| - 1];
             exists at :: Selects(at, Group(key, OfKey(Known(front, identities), key)), front, identities)
    ensures exists at :: Selects(at, Group(key, OfKey(Known(entries, identities), key)), entries, identities)
  {
    var front, x := entries[..|entries| - 1], entries[|entries| - 1];
    var xs := OfKey(Known(front, identities), key);
    var before :| Selects(before, Group(key, xs), front, identities);
    KeptOneMore(front, x, identities, key);
    assert front + [x] == entries;
    if x.matchedIdentity in identities && KeyOf(x) == key {
      SelectsOneMore(before, xs, front, x, identities, key);
    } else {
      SelectsNoMore(before, xs, front, x, identities, key);
    }
  }

  method CreateMonitoredIdentities(entries: seq<LogEntry>, identities: seq<string>) returns (groups: seq<Group>)
    ensures IsGrouping(groups, Known(entries, identities))
    ensures forall i, j :: 0 <= i < j < |groups| ==> groups[i].identity != groups[j].identity
    ensures forall g :: g in groups ==> g.entries != [] && exists at :: Selects(at, g, entries, identities)
    ensures forall x :: x in entries && x.matchedIdentity in identities ==>
              exists g :: g in groups && g.identity == KeyOf(x)
  {
    var identityMap: map<string, bool> := map[];
    for k := 0 to |identities|
      invariant forall id :: id in identityMap <==> id in identities[..k]
    {
      identityMap := identityMap[identities[k] := true];
    }
    assert identities[..|identities|] == identities;

    ghost var known: seq<LogEntry> := [];
    var grouped: map<string, seq<LogEntry>> := map[];
    for k := 0 to |entries|
      invariant known == Known(entries[..k], identities)
      invariant grouped.Keys == Keys(known)
      invariant forall id :: id in grouped ==> grouped[id] == OfKey(known, id)
    {
      assert entries[..k + 1][..k] == entries[..k];
      if entries[k].matchedIdentity in identityMap {
        grouped := AddToGroup(grouped, entries[k], known);
        known := known + [entries[k]];
      }
    }
    assert entries[..|entries|] == entries;

    groups := [];
    var todo := grouped.Keys;
    while todo != {}
      invariant todo <= grouped.Keys && Lists(groups, grouped, grouped.Keys - todo)
      decreases |todo|
    {
      var id :| id in todo;
      ListsOneMore(groups, grouped, grouped.Keys - todo, id);
      assert grouped.Keys - (todo - {id}) == grouped.Keys - todo + {id};
      groups := groups + [Group(id, grouped[id])];
      todo := todo - {id};
    }
    ListedIsGrouping(groups, grouped, known);
    GroupsSelect(groups, entries, identities);
  }

  lemma GroupsSelect(groups: seq<Group>, entries: seq<LogEntry>, identities: seq<string>)
    requires IsGrouping(groups, Known(entries, identities))
    ensures forall g :: g in groups ==> g.entries != [] && exists at :: Selects(at, g, entries, identities)
    ensures forall x :: x in entries && x.matchedIdentity in identities ==>
              exists g :: g in groups && g.identity == KeyOf(x)
  {
    forall g | g in groups
      ensures g.entries != [] && exists at :: Selects(at, g, entries, identities)
    {
      GroupSelects(entries, identities, g.identity);
    }
    forall x | x in entries && x.matchedIdentity in identities
      ensures exists g :: g in groups && g.identity == KeyOf(x)
    {
      KnownHolds(entries, identities, x);
      var i :| 0 <= i < |groups| && groups[i].identity == KeyOf(x);
      assert groups[i] in groups;
    }
  }

  lemma {:induction false} KnownHolds(entries: seq<LogEntry>, identities: seq<string>, x: LogEntry)
    ensures x in Known(entries, identities) <==> x in entries && x.matchedIdentity in identities
    decreases |entries|
  {
    if entries != [] {
      KnownHolds(entries[..|entries| - 1], identities, x);
      assert entries == entries[..|entries| - 1] + [entries[|entries| - 1]];
    }
  }

  /** The groups list the entries of the map under `done`, each once. */
  ghost predicate Lists(groups: seq<Group>, grouped: map<string, seq<LogEntry>>, done: set<string>) {
    && (forall i :: 0 <= i < |groups| ==>
          groups[i].identity in done && groups[i].identity in grouped &&
              groups[i].entries == grouped[groups[i].identity])
    && (forall i, j :: 0 <= i < j < |groups| ==> groups[i].identity != groups[j].identity)
    && (forall id :: id in done ==> HasGroup(groups, id))
  }

  lemma ListsOneMore(groups: seq<Group>, grouped: map<string, seq<LogEntry>>, done: set<string>, id: string)
    requires Lists(groups, grouped, done) && id in grouped && id !in done
    ensures Lists(groups + [Group(id, grouped[id])], grouped, done + {id})
  {
    var more := groups + [Group(id, grouped[id])];
    assert more[|groups|].identity == id;
    forall other | other in done + {id}
      ensures HasGroup(more, other)
    {
      if other != id {
        var i :| 0 <= i < |groups| && groups[i].identity == other;
        assert more[i].identity == other;
      }
    }
  }

  lemma ListedIsGrouping(groups: seq<Group>, grouped: map<string, seq<LogEntry>>, known: seq<LogEntry>)
    requires Lists(groups, grouped, grouped.Keys) && grouped.Keys == Keys(known)
    requires forall id :: id in grouped ==> grouped[id] == OfKey(known, id)
    ensures IsGrouping(groups, known)
  {
    forall i | 0 <= i < |groups|
      ensures groups[i].entries != []
    {
      OfKeyMembers(known, groups[i].identity);
    }
    forall x | x in known
      ensures HasGroup(groups, KeyOf(x))
    {
      assert KeyOf(x) in grouped.Keys;
    }
  }

  /** Append to an existing group or open a new one. */
  method AddToGroup(grouped: map<string, seq<LogEntry>>, x: LogEntry, ghost known: seq<LogEntry>)
    returns (more: map<string, seq<LogEntry>>)
    requires grouped.Keys == Keys(known)
    requires forall id :: id in grouped ==> grouped[id] == OfKey(known, id)
    ensures more.Keys == Keys(known + [x])
    ensures forall id :: id in more ==> more[id] == OfKey(known + [x], id)
  {
    var identityValue := KeyOf(x);
    if identityValue in grouped {
      more := grouped[identityValue := grouped[identityValue] + [x]];
    } else {
      more := grouped[identityValue := [x]];
    }
    ghost var all := known + [x];
    assert all[..|all| - 1] == known && all[|all| - 1] == x;
    assert Keys(all) == Keys(known) + {identityValue} by {
      forall key | key in Keys(known) + {identityValue}
        ensures key in Keys(all)
      {
        if key in Keys(known) {
          var y :| y in known && KeyOf(y) == key;
          assert y in all;
        } else {
          assert x in all;
        }
      }
    }
    OfKeyMembers(known, identityValue);
  }

  // ----- conservation

  function Flatten(groups: seq<Group>): seq<LogEntry> {
    if groups == [] then [] else Flatten(groups[..|groups| - 1]) + groups[|groups| - 1].entries
  }

  lemma {:induction false} OfKeyCounts(entries: seq<LogEntry>, key: string, x: LogEntry)
    ensures multiset(OfKey(entries, key))[x] == if KeyOf(x) == key then multiset(entries)[x] else 0
    decreases |entries|
  {
    if entries != [] {
      var front, last := entries[..|entries| - 1], entries[|entries| - 1];
      OfKeyCounts(front, key, x);
      assert entries == front + [last];
    }
  }

  lemma LastGroup(groups: seq<Group>, key: string)
    requires groups != []
    requires forall i, j :: 0 <= i < j < |groups| ==> groups[i].identity != groups[j].identity
    ensures var front := groups[..|groups| - 1];
            && (HasGroup(groups, key) <==> HasGroup(front, key) || groups[|groups| - 1].identity == key)
            && !(HasGroup(front, key) && groups[|groups| - 1].identity == key)
  {
    var front := groups[..|groups| - 1];
    if HasGroup(front, key) {
      var i :| 0 <= i < |front| && front[i].identity == key;
      assert groups[i].identity == key;
    }
    if HasGroup(groups, key) {
      var i :| 0 <= i < |groups| && groups[i].identity == key;
      assert i < |front| ==> front[i].identity == key;
    }
  }

  lemma {:induction false} FlattenCounts(groups: seq<Group>, entries: seq<LogEntry>, x: LogEntry)
    requires forall i, j :: 0 <= i < j < |groups| ==> groups[i].identity != groups[j].identity
    requires forall i :: 0 <= i < |groups| ==> groups[i].entries == OfKey(entries, groups[i].identity)
    ensures multiset(Flatten(groups))[x] == if HasGroup(groups, KeyOf(x)) then multiset(entries)[x] else 0
    decreases |groups|
  {
    if groups != [] {
      var n := |groups| - 1;
      LastGroup(groups, KeyOf(x));
      FlattenCounts(groups[..n], entries, x);
      OfKeyCounts(entries, groups[n].identity, x);
      assert Flatten(groups) == Flatten(groups[..n]) + groups[n].entries;
    }
  }

  /** The groups together hold exactly the grouped entries, each as often as it was there. */
  lemma GroupingConserves(groups: seq<Group>, entries: seq<LogEntry>)
    requires IsGrouping(groups, entries)
    ensures multiset(Flatten(groups)) == multiset(entries)
  {
    forall x: LogEntry
      ensures multiset(Flatten(groups))[x] == multiset(entries)[x]
    {
      FlattenCounts(groups, entries, x);
      if x in entries {
        assert HasGroup(groups, KeyOf(x));
      }
    }
  }

  // ----- no match is dropped for its identity

  /** The value a match was found by is what its group is named after, and what found it is listed. */
  lemma KeyIsCarried(o: Oracle, mvs: MonitoredValues, e: Entry, x: LogEntry, v: string)
    requires Carries(o, mvs, e, x, v)
    ensures KeyOf(x) == v && x.matchedIdentity in IdentitiesList(mvs)
  {
    ListedExactly(mvs, x.matchedIdentity);
  }

  lemma MatchIsListed(o: Oracle, mvs: MonitoredValues, e: Entry, x: LogEntry)
    requires x in Examine(o, mvs, e).matched
    ensures x.matchedIdentity in IdentitiesList(mvs)
  {
    MatchedIsCarried(o, mvs, e, x);
    var v :| Carries(o, mvs, e, x, v);
    KeyIsCarried(o, mvs, e, x, v);
  }

  lemma {:induction false} AllListedAllKnown(entries: seq<LogEntry>, identities: seq<string>)
    requires forall x :: x in entries ==> x.matchedIdentity in identities
    ensures Known(entries, identities) == entries
    decreases |entries|
  {
    if entries != [] {
      var front, last := entries[..|entries| - 1], entries[|entries| - 1];
      assert entries == front + [last];
      AllListedAllKnown(front, identities);
    }
  }

  /** Everything the search matched is grouped: nothing is dropped for an unknown identity, and the groups
      carry exactly the matches. */
  lemma NothingDropped(o: Oracle, mvs: MonitoredValues, entries: seq<Entry>, groups: seq<Group>)
    requires IsGrouping(groups, Known(AllMatched(o, mvs, entries), IdentitiesList(mvs)))
    ensures Known(AllMatched(o, mvs, entries), IdentitiesList(mvs)) == AllMatched(o, mvs, entries)
    ensures multiset(Flatten(groups)) == multiset(AllMatched(o, mvs, entries))
  {
    forall x | x in AllMatched(o, mvs, entries)
      ensures x.matchedIdentity in IdentitiesList(mvs)
    {
      var k := MatchesHaveEntries(o, mvs, entries, x);
      MatchIsListed(o, mvs, entries[k], x);
    }
    AllListedAllKnown(AllMatched(o, mvs, entries), IdentitiesList(mvs));
    GroupingConserves(groups, AllMatched(o, mvs, entries));
  }

  // ----- what the groups of a search are named after

  /** x is a match of the trusted entry e, found by the value v, which occurs in e. */
  ghost predicate MatchOf(o: Oracle, mvs: MonitoredValues, e: Entry, x: LogEntry, v: string) {
    x in Examine(o, mvs, e).matched && Carries(o, mvs, e, x, v)
  }

  lemma GroupedBy(o: Oracle, mvs: MonitoredValues, entries: seq<Entry>, groups: seq<Group>, g: Group, x: LogEntry)
    returns (e: Entry)
    requires IsGrouping(groups, Known(AllMatched(o, mvs, entries), IdentitiesList(mvs)))
    requires g in groups && x in g.entries
    ensures e in entries && MatchOf(o, mvs, e, x, g.identity)
  {
    NothingDropped(o, mvs, entries, groups);
    OfKeyMembers(AllMatched(o, mvs, entries), g.identity);
    var k := MatchesHaveEntries(o, mvs, entries, x);
    e := entries[k];
    MatchedIsCarried(o, mvs, e, x);
    var v :| Carries(o, mvs, e, x, v);
    KeyIsCarried(o, mvs, e, x, v);
  }

  lemma GroupOf(o: Oracle, mvs: MonitoredValues, entries: seq<Entry>, groups: seq<Group>, e: Entry, x: LogEntry,
                v: string)
    returns (g: Group)
    requires IsGrouping(groups, Known(AllMatched(o, mvs, entries), IdentitiesList(mvs)))
    requires e in entries && MatchOf(o, mvs, e, x, v)
    ensures g in groups && g.identity == v && x in g.entries
  {
    NothingDropped(o, mvs, entries, groups);
    var all := AllMatched(o, mvs, entries);
    var k :| 0 <= k < |entries| && entries[k] == e;
    MatchesAreKept(o, mvs, entries, k, x);
    KeyIsCarried(o, mvs, e, x, v);
    OfKeyMembers(all, v);
    var i :| 0 <= i < |groups| && groups[i].identity == v;
    g := groups[i];
  }

  /** Every group of a search is named after a value that occurs in the entry of each match it holds, every match
      is in the group of the value it was found by, and two matches share a group if and only if these are equal. */
  lemma GroupsByValue(o: Oracle, mvs: MonitoredValues, entries: seq<Entry>, groups: seq<Group>)
    requires IsGrouping(groups, Known(AllMatched(o, mvs, entries), IdentitiesList(mvs)))
    ensures forall g, x :: g in groups && x in g.entries ==>
              exists e :: e in entries && MatchOf(o, mvs, e, x, g.identity)
    ensures forall e, x, v :: e in entries && MatchOf(o, mvs, e, x, v) ==>
              exists g :: g in groups && g.identity == v && x in g.entries
    ensures forall g, h, x, y, e, f, v, w ::
              g in groups && h in groups && x in g.entries && y in h.entries
              && MatchOf(o, mvs, e, x, v) && MatchOf(o, mvs, f, y, w) ==>
                (g == h <==> v == w)
  {
    forall g, x | g in groups && x in g.entries
      ensures exists e :: e in entries && MatchOf(o, mvs, e, x, g.identity)
    {
      var e := GroupedBy(o, mvs, entries, groups, g, x);
    }
    forall e, x, v | e in entries && MatchOf(o, mvs, e, x, v)
      ensures exists g :: g in groups && g.identity == v && x in g.entries
    {
      var g := GroupOf(o, mvs, entries, groups, e, x, v);
    }
    forall g, h, x, y, e, f, v, w | g in groups && h in groups && x in g.entries && y in h.entries
                                    && MatchOf(o, mvs, e, x, v) && MatchOf(o, mvs, f, y, w)
      ensures g == h <==> v == w
    {
      SharedGroup(o, mvs, entries, groups, g, x, e, v);
      SharedGroup(o, mvs, entries, groups, h, y, f, w);
      var i :| 0 <= i < |groups| && groups[i] == g;
      var j :| 0 <= j < |groups| && groups[j] == h;
    }
  }

  lemma SharedGroup(o: Oracle, mvs: MonitoredValues, entries: seq<Entry>, groups: seq<Group>, g: Group, x: LogEntry,
                    e: Entry, v: string)
    requires IsGrouping(groups, Known(AllMatched(o, mvs, entries), IdentitiesList(mvs)))
    requires g in groups && x in g.entries && MatchOf(o, mvs, e, x, v)
    ensures g.identity == v
  {
    var f := GroupedBy(o, mvs, entries, groups, g, x);
    KeyIsCarried(o, mvs, f, x, g.identity);
    KeyIsCarried(o, mvs, e, x, v);
  }

  lemma FoundByName(o: Oracle, mvs: MonitoredValues, entries: seq<Entry>, groups: seq<Group>, g: Group)
    returns (e: Entry, x: LogEntry)
    requires IsGrouping(groups, Known(AllMatched(o, mvs, entries), IdentitiesList(mvs))) && "" !in mvs.fingerprints
    requires g in groups && g.identity == ""
    ensures e in entries && x in Examine(o, mvs, e).matched
    ensures CarriesSubject(o, mvs, e, x, "") || CarriesCert(o, mvs, e, x, "")
  {
    var i :| 0 <= i < |groups| && groups[i] == g;
    assert groups[i].entries != [];
    x := g.entries[0];
    e := GroupedBy(o, mvs, entries, groups, g, x);
  }

  /** The name of a group is empty in one case only: a pattern that matches the empty text met an entry with an
      empty subject, or a certificate whose last matching alternative name is empty. */
  lemma EmptyNameExactly(o: Oracle, mvs: MonitoredValues, entries: seq<Entry>, groups: seq<Group>)
    requires IsGrouping(groups, Known(AllMatched(o, mvs, entries), IdentitiesList(mvs))) && "" !in mvs.fingerprints
    ensures (exists g :: g in groups && g.identity == "") <==>
            exists e, x :: e in entries && x in Examine(o, mvs, e).matched
                           && (CarriesSubject(o, mvs, e, x, "") || CarriesCert(o, mvs, e, x, ""))
  {
    if g :| g in groups && g.identity == "" {
      var e, x := FoundByName(o, mvs, entries, groups, g);
    }
    if e, x :| e in entries && x in Examine(o, mvs, e).matched
               && (CarriesSubject(o, mvs, e, x, "") || CarriesCert(o, mvs, e, x, "")) {
      var g := GroupOf(o, mvs, entries, groups, e, x, "");
    }
  }

  /** Such a group, at an input: a pattern for everything and an entry with an empty subject. */
  lemma EmptyNameGroup(groups: seq<Group>)
    requires var everything := Oracle(_ => true, (_, _) => true, _ => true);
             var mvs := MonitoredValues([], [], [".*"], []);
             var e := Entry(Body("", Parsed([""], [], [])), 0);
             IsGrouping(groups, Known(AllMatched(everything, mvs, [e]), IdentitiesList(mvs)))
    ensures exists g :: g in groups && g.identity == ""
  {
    var everything := Oracle(_ => true, (_, _) => true, _ => true);
    var mvs := MonitoredValues([], [], [".*"], []);
    var e := Entry(Body("", Parsed([""], [], [])), 0);
    var x := LogEntry(".*", BySubject, "", "", "", "", 0, "", [], "");
    SubjectsSucceed(everything, mvs, e, [""]);
    assert CarriesSubject(everything, mvs, e, x, "");
    CarriedIsMatched(everything, mvs, e, x, "");
    var g := GroupOf(everything, mvs, [e], groups, e, x, "");
  }
}
