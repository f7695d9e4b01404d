/** The cached capability directory (tensorcast/capability_directory.py): when a
    cached list is served, refreshed or refused. Time is real and rounding is not
    modelled. */
module CapabilityCache {
  import opened Common

  datatype Options = Options(maxStaleness: real, minInterval: real, maxBackoff: real) {
    predicate Valid() { 0.0 < minInterval <= maxBackoff }
  }

  datatype Snapshot<+T> = Snapshot(entries: seq<T>, lastRefresh: Option<real>, nextRefreshAt: real, backoff: real)

  function Fresh<T>(): Snapshot<T> {
    Snapshot([], None, 0.0, 0.0)
  }

  /** What a fetch would bring if it were made now; None is an RPC error. */
  type Fetch<+T> = Option<seq<T>>

  datatype Reply<+T> = Served(entries: seq<T>) | StaleError

  predicate Stale<T>(s: Snapshot<T>, opt: Options, now: real) {
    s.lastRefresh.None? || now - s.lastRefresh.value > opt.maxStaleness
  }

  /** Inside the window in which a cache that was ever filled is not refreshed. */
  predicate Holds<T>(s: Snapshot<T>, now: real) {
    now < s.nextRefreshAt && s.lastRefresh.Some?
  }

  function NextBackoff(b: real, opt: Options): real {
    if b <= 0.0 then opt.minInterval else MinReal(b * 2.0, opt.maxBackoff)
  }

  function After<T>(s: Snapshot<T>, opt: Options, now: real, fetch: Fetch<T>): Snapshot<T> {
    if Holds(s, now) then s
    else match fetch
      case Some(list) => Snapshot(list, Some(now), now + opt.minInterval, opt.minInterval)
      case None =>
        var b := NextBackoff(s.backoff, opt);
        s.(backoff := b, nextRefreshAt := now + b)
  }

  function ReplyOf<T>(s: Snapshot<T>, opt: Options, now: real, fetch: Fetch<T>): Reply<T> {
    if !Holds(s, now) && fetch.None? && Stale(s, opt, now) then StaleError
    else Served(After(s, opt, now, fetch).entries)
  }

  class CacheState<T> {
    var entries: seq<T>
    var lastRefresh: Option<real>
    var nextRefreshAt: real
    var backoff: real

    ghost function Snap(): Snapshot<T>
      reads this
    {
      Snapshot(entries, lastRefresh, nextRefreshAt, backoff)
    }

    constructor ()
      ensures Snap() == Fresh()
    {
      entries, lastRefresh, nextRefreshAt, backoff := [], None, 0.0, 0.0;
    }

    /** `_maybe_refresh`, followed by the read of the entries. */
    method Get(opt: Options, now: real, fetch: Fetch<T>) returns (reply: Reply<T>)
      modifies this
      ensures Snap() == old(After(Snap(), opt, now, fetch))
      ensures reply == old(ReplyOf(Snap(), opt, now, fetch))
    {
      var stale := lastRefresh.None? || now - lastRefresh.value > opt.maxStaleness;
      if !stale && now < nextRefreshAt {
        return Served(entries);
      }
      if now < nextRefreshAt && lastRefresh.Some? {
        return Served(entries);
      }
      if fetch.Some? {
        entries := fetch.value;
        lastRefresh := Some(now);
        backoff := opt.minInterval;
        nextRefreshAt := now + opt.minInterval;
        return Served(entries);
      }
      if backoff <= 0.0 {
        backoff := opt.minInterval;
      } else {
        backoff := MinReal(backoff * 2.0, opt.maxBackoff);
      }
      nextRefreshAt := now + backoff;
      if stale {
        return StaleError;
      }
      reply := Served(entries);
    }
  }

  // ----- runs

  datatype Query<+T> = Query(now: real, fetch: Fetch<T>)

  function Run<T>(s: Snapshot<T>, opt: Options, qs: seq<Query<T>>): Snapshot<T> {
    if qs == [] then s
    else
      var last := qs[|qs| - 1];
      After(Run(s, opt, qs[..|qs| - 1]), opt, last.now, last.fetch)
  }

  /** Query `i` of a run went to the server. */
  predicate Attempted<T>(s: Snapshot<T>, opt: Options, qs: seq<Query<T>>, i: nat)
    requires i < |qs|
  {
    !Holds(Run(s, opt, qs[..i]), qs[i].now)
  }

  predicate Succeeded<T>(s: Snapshot<T>, opt: Options, qs: seq<Query<T>>, i: nat)
    requires i < |qs|
  {
    Attempted(s, opt, qs, i) && qs[i].fetch.Some?
  }

  ghost predicate NoSuccessFrom<T>(s: Snapshot<T>, opt: Options, qs: seq<Query<T>>, i: nat) {
    forall j: nat | i <= j < |qs| :: !Succeeded(s, opt, qs, j)
  }

  /** `i` is the last query of the run that fetched, and the cache holds what it brought. */
  ghost predicate HoldsFetch<T>(s: Snapshot<T>, opt: Options, qs: seq<Query<T>>, i: nat) {
    && i < |qs| && Succeeded(Fresh(), opt, qs, i)
    && s.lastRefresh == Some(qs[i].now) && s.entries == qs[i].fetch.value
    && NoSuccessFrom(Fresh(), opt, qs, i + 1)
  }

  lemma SucceededInit<T>(s: Snapshot<T>, opt: Options, qs: seq<Query<T>>, i: nat)
    requires i < |qs| - 1
    ensures Succeeded(s, opt, qs, i) <==> Succeeded(s, opt, qs[..|qs| - 1], i)
  {
    assert qs[..i] == qs[..|qs| - 1][..i];
  }

  lemma NoSuccessExtends<T>(opt: Options, qs: seq<Query<T>>, i: nat)
    requires qs != [] && i <= |qs|
    requires NoSuccessFrom(Fresh(), opt, qs[..|qs| - 1], i) && !Succeeded(Fresh(), opt, qs, |qs| - 1)
    ensures NoSuccessFrom(Fresh(), opt, qs, i)
  {
    forall j: nat | i <= j < |qs| ensures !Succeeded(Fresh(), opt, qs, j) {
      if j < |qs| - 1 { SucceededInit(Fresh(), opt, qs, j); }
    }
  }

  /** The cached list is always the one brought by the last successful fetch. */
  lemma {:induction false} EntriesAreLastFetched<T>(opt: Options, qs: seq<Query<T>>)
    ensures var s := Run<T>(Fresh(), opt, qs);
            if s.lastRefresh.None? then s.entries == [] && NoSuccessFrom(Fresh(), opt, qs, 0)
            else exists i: nat :: HoldsFetch(s, opt, qs, i)
  {
    if qs != [] {
      var n := |qs| - 1;
      var before, s := Run<T>(Fresh(), opt, qs[..n]), Run<T>(Fresh(), opt, qs);
      EntriesAreLastFetched(opt, qs[..n]);
      if Succeeded(Fresh(), opt, qs, n) {
        assert HoldsFetch(s, opt, qs, n);
      } else if before.lastRefresh.None? {
        NoSuccessExtends(opt, qs, 0);
      } else {
        var i: nat :| HoldsFetch(before, opt, qs[..n], i);
        SucceededInit(Fresh(), opt, qs, i);
        NoSuccessExtends(opt, qs, i + 1);
        assert HoldsFetch(s, opt, qs, i);
      }
    }
  }

  /** Whatever was asked before, a list that is handed out is the one brought by the last
      successful fetch, that of the answered query included. */
  lemma ServedIsLastFetched<T>(opt: Options, qs: seq<Query<T>>)
    requires qs != []
    ensures var q := qs[|qs| - 1];
            var reply := ReplyOf(Run<T>(Fresh(), opt, qs[..|qs| - 1]), opt, q.now, q.fetch);
            reply.Served? ==>
              exists i: nat :: HoldsFetch(Run<T>(Fresh(), opt, qs), opt, qs, i) && reply.entries == qs[i].fetch.value
  {
    EntriesAreLastFetched(opt, qs);
    var s := Run<T>(Fresh(), opt, qs);
    if s.lastRefresh.Some? {
      var i: nat :| HoldsFetch(s, opt, qs, i);
    }
  }

  // ----- backoff

  function Pow2(k: nat): real {
    if k == 0 then 1.0 else 2.0 * Pow2(k - 1)
  }

  lemma {:induction false} Pow2AtLeastOne(k: nat)
    ensures Pow2(k) >= 1.0
  {
    if k > 0 { Pow2AtLeastOne(k - 1); }
  }

  /** The backoff after `k` failures in a row. */
  function Level(k: nat, opt: Options): real {
    MinReal(Pow2(k) * opt.minInterval, opt.maxBackoff)
  }

  lemma LevelStep(k: nat, opt: Options)
    requires opt.Valid()
    ensures Level(k, opt) > 0.0 && NextBackoff(Level(k, opt), opt) == Level(k + 1, opt)
  {
    Pow2AtLeastOne(k);
    ScaleUp(Pow2(k), 1.0, opt.minInterval);
    var y := Pow2(k) * opt.minInterval;
    assert Pow2(k + 1) * opt.minInterval == 2.0 * y;
  }

  /** The failed attempts of a run since its last success, or since its start. */
  function Failures<T>(s: Snapshot<T>, opt: Options, qs: seq<Query<T>>): nat {
    if qs == [] then 0
    else
      var n := |qs| - 1;
      if !Attempted(s, opt, qs, n) then Failures(s, opt, qs[..n])
      else if qs[n].fetch.Some? then 0
      else Failures(s, opt, qs[..n]) + 1
  }

  /** When the run last went to the server. */
  function LastAttempt<T>(s: Snapshot<T>, opt: Options, qs: seq<Query<T>>): Option<real> {
    if qs == [] then None
    else
      var n := |qs| - 1;
      if Attempted(s, opt, qs, n) then Some(qs[n].now) else LastAttempt(s, opt, qs[..n])
  }

  /** After any queries, answered from the cache or by the server in any order: k failed
      attempts after the last success leave the backoff at min(2^k * m, M), and the next
      attempt is that long after the last. */
  lemma {:induction false} BackoffDoubles<T>(s: Snapshot<T>, opt: Options, qs: seq<Query<T>>)
    requires opt.Valid() && s.backoff == opt.minInterval
    ensures var t := Run(s, opt, qs);
            && t.backoff == Level(Failures(s, opt, qs), opt)
            && (LastAttempt(s, opt, qs).Some? ==> t.nextRefreshAt == LastAttempt(s, opt, qs).value + t.backoff)
            && (LastAttempt(s, opt, qs).None? ==> t == s)
  {
    if qs != [] {
      var n := |qs| - 1;
      BackoffDoubles(s, opt, qs[..n]);
      LevelStep(Failures(s, opt, qs[..n]), opt);
    }
  }

  function Attempts<T>(s: Snapshot<T>, opt: Options, qs: seq<Query<T>>): nat {
    if qs == [] then 0
    else Attempts(s, opt, qs[..|qs| - 1]) + if Attempted(s, opt, qs, |qs| - 1) then 1 else 0
  }

  /** A run without a success keeps the cached list; every attempt of it is a failure. */
  lemma {:induction false} NoSuccessKeepsList<T>(s: Snapshot<T>, opt: Options, qs: seq<Query<T>>)
    requires NoSuccessFrom(s, opt, qs, 0)
    ensures Run(s, opt, qs).entries == s.entries && Run(s, opt, qs).lastRefresh == s.lastRefresh
    ensures Failures(s, opt, qs) == Attempts(s, opt, qs)
  {
    if qs != [] {
      var n := |qs| - 1;
      assert !Succeeded(s, opt, qs, n);
      forall j: nat | 0 <= j < n ensures !Succeeded(s, opt, qs[..n], j) {
        SucceededInit(s, opt, qs, j);
      }
      NoSuccessKeepsList(s, opt, qs[..n]);
    }
  }

  /** Before the first success every query is an attempt, and the backoff starts with
      the first failure. */
  lemma {:induction false} BackoffBeforeFirstSuccess<T>(opt: Options, qs: seq<Query<T>>)
    requires opt.Valid() && forall i | 0 <= i < |qs| :: qs[i].fetch.None?
    ensures Run(Fresh(), opt, qs).lastRefresh.None? && Failures(Fresh(), opt, qs) == |qs|
    ensures Run(Fresh(), opt, qs).backoff == if qs == [] then 0.0 else Level(|qs| - 1, opt)
  {
    if qs != [] {
      var n := |qs| - 1;
      BackoffBeforeFirstSuccess(opt, qs[..n]);
      if n > 0 { LevelStep(n - 1, opt); }
    }
  }

  // ----- staleness

  /** The list was fetched longer ago than the options promise. */
  predicate OverAge<T>(s: Snapshot<T>, opt: Options, now: real) {
    s.lastRefresh.Some? && s.lastRefresh.value + opt.maxStaleness < now
  }

  /** Exactly when a list older than the promised staleness is handed out: while a filled
      cache is held back from refreshing. An error is raised exactly when a fetch is made
      and fails and there is no list or only an over-age one. */
  lemma OverAgeServedIff<T>(s: Snapshot<T>, opt: Options, now: real, fetch: Fetch<T>)
    requires opt.maxStaleness >= 0.0
    ensures var after, reply := After(s, opt, now, fetch), ReplyOf(s, opt, now, fetch);
            && (reply.Served? && OverAge(after, opt, now) <==> now < s.nextRefreshAt && OverAge(s, opt, now))
            && (reply.StaleError? <==>
                  && (s.lastRefresh.None? || now >= s.nextRefreshAt)
                  && fetch.None? && (s.lastRefresh.None? || OverAge(s, opt, now)))
            && (reply.Served? ==> after.lastRefresh.Some? && reply.entries == after.entries)
  {
  }

  /** A filled cache that keeps failing: attempts exactly when allowed. */
  function FailingRun<T>(s: Snapshot<T>, opt: Options, k: nat): Snapshot<T> {
    if k == 0 then s
    else
      var t := FailingRun(s, opt, k - 1);
      After(t, opt, t.nextRefreshAt, None)
  }

  lemma {:induction false} FailingRunAges<T>(s: Snapshot<T>, opt: Options, k: nat)
    requires opt.Valid() && s.lastRefresh.Some? && s.backoff >= opt.minInterval
    ensures var t := FailingRun(s, opt, k);
            && t.entries == s.entries && t.lastRefresh == s.lastRefresh
            && t.backoff >= opt.minInterval
            && t.nextRefreshAt >= s.nextRefreshAt + k as real * opt.minInterval
  {
    if k > 0 { FailingRunAges(s, opt, k - 1); }
  }

  /** The staleness is not bounded: after one success and enough failures, a list of
      any age is served without an error. */
  lemma StalenessIsUnbounded<T>(opt: Options, list: seq<T>, bound: real) returns (k: nat, now: real)
    requires opt.Valid()
    ensures var filled := After(Fresh<T>(), opt, 0.0, Some(list));
            var s := FailingRun(filled, opt, k);
            && s.lastRefresh.Some? && now - s.lastRefresh.value > bound
            && ReplyOf(s, opt, now, None) == Served(list)
  {
    var filled := After(Fresh<T>(), opt, 0.0, Some(list));
    k := EnoughFailures(opt.minInterval, bound);
    FailingRunAges(filled, opt, k);
    now := FailingRun(filled, opt, k).nextRefreshAt - opt.minInterval / 2.0;
  }

  lemma EnoughFailures(m: real, bound: real) returns (k: nat)
    requires m > 0.0
    ensures k as real * m > bound
  {
    var need := if bound < 0.0 then 0.0 else bound / m;
    k := need.Floor + 1;
    assert k as real > need;
    ScaleUpStrictly(k as real, need, m);
    assert need * m >= bound;
  }

  lemma ScaleUpStrictly(a: real, b: real, c: real)
    requires a > b && c > 0.0
    ensures a * c > b * c
  {
    assert (a - b) * c > 0.0;
  }

  lemma ScaleUp(a: real, b: real, c: real)
    requires a >= b && c > 0.0
    ensures a * c >= b * c
  {
    assert (a - b) * c >= 0.0;
  }
}
