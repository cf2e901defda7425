/** In one process the searches abut: each begins where the one before it ended. */
module Incremental {
  import opened Prelude
  import opened Consistency
  import opened IdentitySearch
  import opened MonitorProtocol
  import opened Coverage

  predicate NoRestart(es: seq<Event>) {
    Start !in es
  }

  ghost predicate Abut(scans: seq<Scan>) {
    forall k :: 0 < k < |scans| ==> scans[k].start == scans[k - 1].end
  }

  ghost predicate InRange(scans: seq<Scan>) {
    forall k :: 0 <= k < |scans| ==> -1 <= scans[k].start <= scans[k].end
  }

  /** In a process that has searched, the next search will start where the last one ended. */
  ghost predicate Continues(s: State) {
    && Abut(s.scans) && InRange(s.scans)
    && (s.scans != [] && !s.phase.Down? ==> s.start == Some(s.scans[|s.scans| - 1].end))
  }

  lemma HandOverContinues(cfg: Config, site: Site, s: State)
    requires Setting(cfg, site) && Agrees(cfg, site, cfg.version == V2, s) && Continues(s)
    requires Step(cfg, s, HandOver).Some?
    ensures Continues(Step(cfg, s, HandOver).value)
  {
  }

  lemma StepContinues(cfg: Config, site: Site, s: State, e: Event)
    requires Setting(cfg, site) && Agrees(cfg, site, cfg.version == V2, s) && Continues(s) && Step(cfg, s, e).Some?
    requires e != Start
    ensures Continues(Step(cfg, s, e).value)
  {
    if e.HandOver? {
      HandOverContinues(cfg, site, s);
    } else {
      assert Step(cfg, s, e).value.scans == s.scans;
    }
  }

  lemma {:induction false} ExecContinues(cfg: Config, site: Site, s: State, es: seq<Event>, t: State)
    requires Setting(cfg, site) && Plain(cfg) && Agrees(cfg, site, cfg.version == V2, s) && Continues(s)
    requires Exec(cfg, s, es) == Some(t)
    requires SteadyRun(cfg, site, es) && FitRun(site, es) && NoRestart(es) && (cfg.version == V2 ==> EmptiesAreSeen(es))
    ensures Continues(t)
    decreases |es|
  {
    if es != [] {
      StepContinues(cfg, site, s, es[0]);
      StepKeepsAgreement(cfg, site, cfg.version == V2, s, es[0]);
      var rest := es[1..];
      assert SteadyRun(cfg, site, rest) && FitRun(site, rest) && (cfg.version == V2 ==> EmptiesAreSeen(rest)) by {
        assert forall k :: 0 <= k < |es| - 1 ==> es[1..][k] == es[k + 1];
      }
      ExecContinues(cfg, site, Step(cfg, s, es[0]).value, es[1..], t);
    }
  }

  /** The delivered searches of one process, whatever checks failed or could not see the file in between, abut;
      with the fact that each starts at the stored checkpoint they cut one interval of indices. */
  lemma ScansAbut(cfg: Config, site: Site, s: State, es: seq<Event>, t: State)
    requires Setting(cfg, site) && Plain(cfg) && FirstStart(cfg, site, s)
    requires s.file.Saved? ==> Fits(site, s.file.checkpoint)
    requires Exec(cfg, s, [Start] + es) == Some(t)
    requires SteadyRun(cfg, site, es) && FitRun(site, es) && NoRestart(es) && (cfg.version == V2 ==> EmptiesAreSeen(es))
    ensures forall k :: 0 < k < |t.scans| ==> t.scans[k].start == t.scans[k - 1].end
    ensures forall k :: 0 <= k < |t.scans| ==> -1 <= t.scans[k].start <= t.scans[k].end
  {
    ExecCons(cfg, s, Start, es);
    StepKeepsAgreement(cfg, site, cfg.version == V2, s, Start);
    ExecContinues(cfg, site, Step(cfg, s, Start).value, es, t);
  }
}
