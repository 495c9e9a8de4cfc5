/** The rolling velocity limit (InMemoryVelocityLimiter in
    backend/src/chains/payout/policy.ts, SqlVelocityLimiter in
    backend/src/stores/policy.store.ts with the queries of
    backend/src/queries/policy.queries.ts). */
module Velocity {
  import opened Wrappers

  datatype Item = Item(at: int, amount: int)

  datatype VelocityConfig = VelocityConfig(windowMs: nat, maxTotal: int)

  type Log = seq<Item>

  /** The items at or after a cutoff. */
  function Since(log: Log, cutoff: int): Log
  {
    if log == [] then []
    else
      var last := log[|log| - 1];
      Since(log[..|log| - 1], cutoff) + if last.at >= cutoff then [last] else []
  }

  function Total(log: Log): int
  {
    if log == [] then 0 else Total(log[..|log| - 1]) + log[|log| - 1].amount
  }

  /** One admission on the log of one tenant, merchant and asset: the pruned log with the
      new item, or None for a denial. */
  function Admit(log: Log, config: VelocityConfig, amount: int, now: int): Option<Log>
  {
    var recent := Since(log, now - config.windowMs);
    if Total(recent) + amount > config.maxTotal then None else Some(recent + [Item(now, amount)])
  }

  /** The same against a table: sum the rows in the window, insert, then delete the rows
      before the cutoff, all in one transaction that a denial rolls back. */
  function AdmitInTable(log: Log, config: VelocityConfig, amount: int, now: int): Option<Log>
  {
    var cutoff := now - config.windowMs;
    if Total(Since(log, cutoff)) + amount > config.maxTotal then None
    else Some(Since(log + [Item(now, amount)], cutoff))
  }

  /** Pruning before or after recording makes no difference. */
  lemma {:induction false} BothLimitersAgree(log: Log, config: VelocityConfig, amount: int, now: int)
    ensures AdmitInTable(log, config, amount, now) == Admit(log, config, amount, now)
  {
    assert (log + [Item(now, amount)])[..|log|] == log;
  }

  class InMemoryVelocityLimiter {
    const config: VelocityConfig
    var log: map<string, Log>

    constructor (config: VelocityConfig)
      ensures this.config == config && log == map[]
    {
      this.config := config;
      log := map[];
    }

    function LogOf(key: string): Log
      reads this
    {
      if key in log then log[key] else []
    }

    /** `admit`: a denial leaves the log alone, and no other key is touched. */
    method AdmitPayout(key: string, amount: int, now: int) returns (admitted: bool)
      modifies this
      ensures admitted <==> Admit(old(LogOf(key)), config, amount, now).Some?
      ensures LogOf(key) == if admitted then Admit(old(LogOf(key)), config, amount, now).value else old(LogOf(key))
      ensures forall k :: k != key ==> LogOf(k) == old(LogOf(k))
    {
      var recent := Since(LogOf(key), now - config.windowMs);
      if Total(recent) + amount > config.maxTotal {
        return false;
      }
      log := log[key := recent + [Item(now, amount)]];
      return true;
    }
  }

  // -------------------------------------------------------------------- runs

  /** The pruned log the limiter keeps, and everything it ever admitted. */
  datatype Ledger = Ledger(log: Log, history: Log)

  function Run(config: VelocityConfig, requests: seq<Item>): Ledger
  {
    if requests == [] then Ledger([], [])
    else
      var before, r := Run(config, requests[..|requests| - 1]), requests[|requests| - 1];
      var admitted := Admit(before.log, config, r.amount, r.at);
      if admitted.None? then before else Ledger(admitted.value, before.history + [r])
  }

  /** Requests with positive amounts and a clock that does not go back. */
  ghost predicate InOrder(requests: seq<Item>)
  {
    && (forall i :: 0 <= i < |requests| ==> requests[i].amount > 0)
    && (forall i, j :: 0 <= i < j < |requests| ==> requests[i].at <= requests[j].at)
  }

  lemma {:induction false} SinceTwice(h: Log, c: int, d: int)
    requires c <= d
    ensures Since(Since(h, c), d) == Since(h, d)
  {
    if h != [] {
      var p, last := h[..|h| - 1], h[|h| - 1];
      SinceTwice(p, c, d);
      if last.at >= c {
        SinceSnoc(Since(p, c), last, d);
      } else {
        assert Since(h, c) == Since(p, c) && Since(h, d) == Since(p, d);
      }
    }
  }

  lemma {:induction false} SinceSnoc(h: Log, x: Item, c: int)
    ensures Since(h + [x], c) == Since(h, c) + if x.at >= c then [x] else []
  {
    assert (h + [x])[..|h|] == h;
  }

  lemma {:induction false} SinceShrinks(h: Log, c: int, d: int)
    requires c <= d && forall i :: 0 <= i < |h| ==> h[i].amount > 0
    ensures 0 <= Total(Since(h, d)) <= Total(Since(h, c))
  {
    if h != [] {
      var p, last := h[..|h| - 1], h[|h| - 1];
      SinceShrinks(p, c, d);
      TotalSnoc(Since(p, c), last);
      TotalSnoc(Since(p, d), last);
    }
  }

  lemma {:induction false} TotalSnoc(log: Log, x: Item)
    ensures Total(log + [x]) == Total(log) + x.amount && Total(log + []) == Total(log)
  {
    assert (log + [x])[..|log|] == log && log + [] == log;
  }

  /** Each admission found room in its own window. */
  ghost predicate Fits(config: VelocityConfig, h: Log, k: int)
    requires 0 <= k < |h|
  {
    Total(Since(h[..k + 1], h[k].at - config.windowMs)) <= config.maxTotal
  }

  ghost predicate Ok(config: VelocityConfig, s: Ledger, now: int)
  {
    && InOrder(s.history) && NotAfter(s.history, now) && AllFit(config, s.history)
    && Agree(s.log, s.history, now - config.windowMs)
  }

  ghost predicate NotAfter(h: Log, now: int)
  {
    forall i :: 0 <= i < |h| ==> h[i].at <= now
  }

  ghost predicate AllFit(config: VelocityConfig, h: Log)
  {
    forall i :: 0 <= i < |h| ==> Fits(config, h, i)
  }

  lemma {:induction false} InOrderSnoc(h: Log, r: Item)
    requires InOrder(h) && NotAfter(h, r.at) && r.amount > 0
    ensures InOrder(h + [r]) && NotAfter(h + [r], r.at)
  {
  }

  /** From a cutoff on, two logs give the same window. */
  ghost predicate Agree(log: Log, h: Log, from: int)
  {
    forall cutoff :: cutoff >= from ==> Since(log, cutoff) == Since(h, cutoff)
  }

  lemma {:induction false} AgreeAdmitted(log: Log, h: Log, r: Item, cut: int)
    requires Agree(log, h, cut)
    ensures Agree(Since(log, cut) + [r], h + [r], cut)
  {
    forall cutoff | cutoff >= cut ensures Since(Since(log, cut) + [r], cutoff) == Since(h + [r], cutoff) {
      SinceTwice(log, cut, cutoff);
      SinceSnoc(Since(log, cut), r, cutoff);
      SinceSnoc(h, r, cutoff);
    }
  }

  lemma {:induction false} AdmitOk(config: VelocityConfig, s: Ledger, r: Item)
    requires Ok(config, s, r.at) && r.amount > 0 && Admit(s.log, config, r.amount, r.at).Some?
    ensures Ok(config, Ledger(Admit(s.log, config, r.amount, r.at).value, s.history + [r]), r.at)
  {
    var cut := r.at - config.windowMs;
    assert Since(s.log, cut) == Since(s.history, cut);
    AgreeAdmitted(s.log, s.history, r, cut);
    FitsSnoc(config, s.history, r);
    InOrderSnoc(s.history, r);
  }

  lemma {:induction false} FitsSnoc(config: VelocityConfig, h: Log, r: Item)
    requires AllFit(config, h)
    requires Total(Since(h, r.at - config.windowMs)) + r.amount <= config.maxTotal
    ensures AllFit(config, h + [r])
  {
    var l := h + [r];
    forall i | 0 <= i < |l| ensures Fits(config, l, i) {
      if i < |h| {
        assert Fits(config, h, i);
        assert l[..i + 1] == h[..i + 1];
      } else {
        LastFits(config, h, r);
      }
    }
  }

  lemma {:induction false} LastFits(config: VelocityConfig, h: Log, r: Item)
    requires Total(Since(h, r.at - config.windowMs)) + r.amount <= config.maxTotal
    ensures Fits(config, h + [r], |h|)
  {
    SpentSnoc(h, r, r.at - config.windowMs);
    LastOf(h, r);
  }

  lemma {:induction false} LastOf(h: Log, r: Item)
    ensures (h + [r])[..|h| + 1] == h + [r] && (h + [r])[|h|] == r
  {
  }

  lemma {:induction false} SpentSnoc(h: Log, r: Item, cut: int)
    requires cut <= r.at
    ensures Total(Since(h + [r], cut)) == Total(Since(h, cut)) + r.amount
  {
    SinceSnoc(h, r, cut);
    TotalSnoc(Since(h, cut), r);
  }

  lemma {:induction false} LaterOk(config: VelocityConfig, s: Ledger, now: int, later: int)
    requires Ok(config, s, now) && now <= later
    ensures Ok(config, s, later)
  {
  }

  lemma {:induction false} RunOk(config: VelocityConfig, requests: seq<Item>, now: int)
    requires InOrder(requests) && (requests != [] ==> requests[|requests| - 1].at <= now)
    ensures Ok(config, Run(config, requests), now)
  {
    if requests != [] {
      var p, r := requests[..|requests| - 1], requests[|requests| - 1];
      RunOk(config, p, r.at);
      var s := Run(config, p);
      if Admit(s.log, config, r.amount, r.at).Some? { AdmitOk(config, s, r); }
      LaterOk(config, Run(config, requests), r.at, now);
    }
  }

  /** The pruned log always gives the figure the full history would give. */
  lemma {:induction false} PruningIsInvisible(config: VelocityConfig, requests: seq<Item>, now: int)
    requires InOrder(requests) && (requests != [] ==> requests[|requests| - 1].at <= now)
    ensures var s := Run(config, requests);
      var cutoff := now - config.windowMs;
      Since(s.log, cutoff) == Since(s.history, cutoff)
  {
    RunOk(config, requests, now);
  }

  /** What was admitted in a closed interval. */
  function Within(h: Log, from: int, to: int): int
  {
    if h == [] then 0
    else
      var last := h[|h| - 1];
      Within(h[..|h| - 1], from, to) + if from <= last.at <= to then last.amount else 0
  }

  lemma {:induction false} WithinAll(h: Log, from: int, to: int)
    requires forall i :: 0 <= i < |h| ==> h[i].at <= to
    ensures Within(h, from, to) == Total(Since(h, from))
  {
    if h != [] {
      WithinAll(h[..|h| - 1], from, to);
      TotalSnoc(Since(h[..|h| - 1], from), h[|h| - 1]);
    }
  }

  lemma {:induction false} AllFitPrefix(config: VelocityConfig, h: Log, n: nat)
    requires AllFit(config, h) && n <= |h|
    ensures AllFit(config, h[..n])
  {
    forall i | 0 <= i < n ensures Fits(config, h[..n], i) {
      assert Fits(config, h, i);
      assert h[..n][..i + 1] == h[..i + 1];
    }
  }

  lemma {:induction false} WindowBound(config: VelocityConfig, h: Log, t: int)
    requires InOrder(h) && config.maxTotal >= 0 && AllFit(config, h)
    ensures Within(h, t - config.windowMs, t) <= config.maxTotal
  {
    if h != [] {
      var n := |h| - 1;
      if h[n].at > t {
        AllFitPrefix(config, h, n);
        WindowBound(config, h[..n], t);
      } else {
        WithinAll(h, t - config.windowMs, t);
        assert Fits(config, h, n);
        assert h[..n + 1] == h;
        SinceShrinks(h, h[n].at - config.windowMs, t - config.windowMs);
      }
    }
  }

  /** In every run and at every moment, what was admitted in the window that ends there
      stays within the limit. */
  lemma {:induction false} NeverOverLimit(config: VelocityConfig, requests: seq<Item>, t: int)
    requires InOrder(requests) && config.maxTotal >= 0
    ensures Within(Run(config, requests).history, t - config.windowMs, t) <= config.maxTotal
  {
    RunOk(config, requests, if requests == [] then 0 else requests[|requests| - 1].at);
    WindowBound(config, Run(config, requests).history, t);
  }

  /** After every run the next request is admitted if and only if it fits: what was admitted
      from the start of its window on, pruned or not, and its own amount stay within the
      limit. */
  lemma {:induction false} AdmittedExactly(config: VelocityConfig, requests: seq<Item>, r: Item)
    requires InOrder(requests) && (requests != [] ==> requests[|requests| - 1].at <= r.at)
    ensures var s, t := Run(config, requests), Run(config, requests + [r]);
      if Total(Since(s.history, r.at - config.windowMs)) + r.amount <= config.maxTotal
      then t.history == s.history + [r]
      else t == s
  {
    PruningIsInvisible(config, requests, r.at);
    AdmittedByHistory(config, requests, r);
  }

  lemma {:induction false} AdmittedByHistory(config: VelocityConfig, requests: seq<Item>, r: Item)
    requires var s, cutoff := Run(config, requests), r.at - config.windowMs;
      Since(s.log, cutoff) == Since(s.history, cutoff)
    ensures var s, t := Run(config, requests), Run(config, requests + [r]);
      if Total(Since(s.history, r.at - config.windowMs)) + r.amount <= config.maxTotal
      then t.history == s.history + [r]
      else t == s
  {
    NextRun(config, requests, r);
  }

  lemma {:induction false} NextRun(config: VelocityConfig, requests: seq<Item>, r: Item)
    ensures var s := Run(config, requests);
      var admitted := Admit(s.log, config, r.amount, r.at);
      Run(config, requests + [r]) == if admitted.None? then s else Ledger(admitted.value, s.history + [r])
  {
    assert (requests + [r])[..|requests|] == requests;
  }
}
