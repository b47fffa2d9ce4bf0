/** When a silent client is answered to: not before its agreed seconds have passed, and then at once. */
module Timing {
  import opened Wire
  import opened Settings
  import opened Blocks
  import opened Protocol
  import opened DownloadTotals
  import opened UploadLaws
  import opened Answers

  /** Before the agreed seconds have passed since the last activity nothing happens. */
  lemma TooEarly(cfg: Config, s: State, env: Env)
    requires Transferring(s) && env.now - s.stamp < s.packetTimeout * 1000
    ensures TimeoutRound(cfg, s, env) == Outcome(s, [], true)
  {
  }

  /** Once they have, a retry is counted, and the last one gives up without a word. */
  lemma TimeUp(cfg: Config, s: State, s1: State, env: Env)
    requires Transferring(s) && env.now - s.stamp >= s.packetTimeout * 1000 && s1 == s.(retry := s.retry + 1)
    ensures s1.retry >= cfg.retryMax ==> TimeoutRound(cfg, s, env) == Outcome(s1, [], false)
    ensures s1.retry < cfg.retryMax && s.op == ServerToClient ==> TimeoutRound(cfg, s, env) == WindowRound(cfg, s1, env)
    ensures s1.retry < cfg.retryMax && s.op == ClientToServer && env.sendsOk > 0 ==>
              TimeoutRound(cfg, s, env) == Outcome(s1.(stamp := env.now), [Ack(s.first)], true)
    ensures s1.retry < cfg.retryMax && s.op == ClientToServer && env.sendsOk == 0 ==>
              EndsWith(s, TimeoutRound(cfg, s, env), 0, env.now)
  {
    if s.op == ClientToServer {
      LeadingOfNone(s.windowSize);
      assert Word(s.first) == s.first;
    }
  }

  // ---- over runs

  /** All of it happens before this time. */
  predicate Until(events: seq<Event>, time: int) {
    forall i :: 0 <= i < |events| ==> events[i].env.now < time
  }

  /** A silent session is left alone for its agreed seconds: neither resent to nor given up on. */
  lemma {:induction false} LeftAlone(cfg: Config, o: Outcome, events: seq<Event>)
    requires cfg.Consistent() && o.alive && Transferring(o.s)
    requires Silent(events) && Until(events, o.s.stamp + o.s.packetTimeout * 1000)
    ensures Run(cfg, o, events) == o
    decreases |events|
  {
    if events != [] {
      var n := |events| - 1;
      LeftAlone(cfg, o, events[..n]);
      TooEarly(cfg, o.s, events[n].env);
    }
  }

  /** A session that can be resent to. */
  predicate Armed(s: State) {
    Transferring(s) && (s.op == ServerToClient ==> s.file.Some?)
  }

  /** An expiry starts the wait anew. */
  lemma ExpiryRestarts(cfg: Config, s: State, env: Env)
    requires Armed(s)
    ensures var r := TimeoutRound(cfg, s, env);
            r.alive ==>
              && Armed(r.s) && r.s.op == s.op && r.s.packetTimeout == s.packetTimeout
              && r.s.stamp == if env.now - s.stamp >= s.packetTimeout * 1000 then env.now else s.stamp
  {
    if env.now - s.stamp < s.packetTimeout * 1000 {
      TooEarly(cfg, s, env);
    } else {
      TimeUp(cfg, s, s.(retry := s.retry + 1), env);
      if s.op == ClientToServer { SilentUploadRound(cfg, s, env); }
    }
  }

  /** Every expiry so far took its agreed seconds. */
  predicate Paced(o: Outcome, r: Outcome, expired: nat) {
    r.alive ==>
      && Armed(r.s) && r.s.op == o.s.op && r.s.packetTimeout == o.s.packetTimeout
      && r.s.stamp - o.s.stamp >= expired * (o.s.packetTimeout * 1000)
  }

  lemma PacedStep(cfg: Config, o: Outcome, r: Outcome, expired: nat, after: nat, ev: Event)
    requires cfg.Consistent() && Paced(o, r, expired) && r.alive && ev.bytes == []
    requires after == expired + if Expired(r.s, ev.env.now) then 1 else 0
    ensures var t := Step(cfg, r.s, ev); Paced(o, Outcome(t.s, r.sent + t.sent, t.alive), after)
    ensures after > expired ==> ev.env.now - o.s.stamp >= after * (o.s.packetTimeout * 1000)
  {
    ExpiryRestarts(cfg, r.s, ev.env);
    Spread(expired, after - expired, o.s.packetTimeout * 1000);
  }

  lemma {:induction false} EachTakesItsTime(cfg: Config, o: Outcome, events: seq<Event>)
    requires cfg.Consistent() && o.alive && Armed(o.s) && o.s.packetTimeout >= 0 && Silent(events)
    ensures Paced(o, Run(cfg, o, events), Expirations(cfg, o, events))
    decreases |events|
  {
    if events != [] {
      var n := |events| - 1;
      EachTakesItsTime(cfg, o, events[..n]);
      var r := Run(cfg, o, events[..n]);
      if r.alive { PacedStep(cfg, o, r, Expirations(cfg, o, events[..n]), Expirations(cfg, o, events), events[n]); }
    }
  }

  /** Before `k` times the agreed seconds have passed, fewer than `k` timeouts expire. */
  lemma {:induction false} FewExpire(cfg: Config, o: Outcome, events: seq<Event>, k: nat)
    requires cfg.Consistent() && o.alive && Armed(o.s) && o.s.packetTimeout >= 1 && Silent(events)
    requires k >= 1 && Until(events, o.s.stamp + k * (o.s.packetTimeout * 1000))
    ensures Expirations(cfg, o, events) < k
    decreases |events|
  {
    if events != [] {
      var n := |events| - 1;
      var r, before, after := Run(cfg, o, events[..n]), Expirations(cfg, o, events[..n]), Expirations(cfg, o, events);
      FewExpire(cfg, o, events[..n], k);
      EachTakesItsTime(cfg, o, events[..n]);
      if after > before {
        PacedStep(cfg, o, r, before, after, events[n]);
        if after >= k { MulMono(k, after, o.s.packetTimeout * 1000); }
      }
    }
  }

  /** A silent upload is not given up on before all its retries have had their seconds. */
  lemma NotGivenUpEarly(cfg: Config, o: Outcome, events: seq<Event>, k: nat)
    requires cfg.Consistent() && o.alive && Clean(o.s) && o.s.packetTimeout >= 1 && o.s.retry >= 0
    requires Silent(events) && SendsWork(events, 1) && k == RetriesLeft(cfg, o.s) >= 1
    requires Until(events, o.s.stamp + k * (o.s.packetTimeout * 1000))
    ensures Run(cfg, o, events).alive
  {
    FewExpire(cfg, o, events, k);
    SilentUpload(cfg, o, events);
  }

  lemma {:induction false} ResendsExpire(cfg: Config, o: Outcome, events: seq<Event>)
    requires cfg.Consistent() && WellFormed(o.s)
    ensures ResendCount(cfg, o, events) <= Expirations(cfg, o, events)
    decreases |events|
  {
    if events != [] { ResendsExpire(cfg, o, events[..|events| - 1]); }
  }

  /** And a silent client, of a download or an upload, is resent to at most once in its agreed seconds. */
  lemma ResendsTakeTime(cfg: Config, o: Outcome, events: seq<Event>, k: nat)
    requires cfg.Consistent() && o.alive && Armed(o.s) && o.s.packetTimeout >= 1 && Silent(events)
    requires k >= 1 && Until(events, o.s.stamp + k * (o.s.packetTimeout * 1000))
    ensures ResendCount(cfg, o, events) < k
  {
    FewExpire(cfg, o, events, k);
    ResendsExpire(cfg, o, events);
  }
}
