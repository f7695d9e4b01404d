/** The unary-call retry loop of the daemon client (tensorcast/daemon_ctl.py),
    against an arbitrary clock and arbitrary RPC outcomes. */
module RpcRetry {
  import opened Common

  datatype Code = Unavailable | Internal | Unknown | DeadlineExceeded | Other(number: nat)

  datatype Outcome<+T> = Response(value: T) | Error(code: Code)

  /** What the environment does in one attempt: the time that passes before the
      budget is checked, between the check and the call, during the call, and
      during the channel refresh and the randomised pause that follow a failure. */
  datatype Attempt<+T> = Attempt(
    before: real, lag: real, duration: real, outcome: Outcome<T>, refresh: real, jitter: real)

  /** One RPC as it happened, with the stub (channel number) it was bound to. */
  datatype Call<+T> = Call(
    checkedAt: real, start: real, finish: real, timeout: Option<real>, stub: nat, outcome: Outcome<T>)

  datatype CallResult<+T> = Returned(value: T) | Raised(code: Code) | AssertionFailed

  const MIN_CALL_TIMEOUT := 0.001

  predicate Transient(code: Code) {
    code in {Unavailable, Internal, Unknown, DeadlineExceeded}
  }

  predicate Plausible<T>(a: Attempt<T>) {
    a.before >= 0.0 && a.lag >= 0.0 && a.duration >= 0.0 && a.refresh >= 0.0 && 0.0 <= a.jitter < 1.0
  }

  function Pause<T>(a: Attempt<T>): real {
    0.05 + a.jitter * 0.1
  }

  function Budget(timeout: Option<real>): real {
    if timeout.Some? then MaxReal(0.0, timeout.value) else 0.0
  }

  /** The moment at which call `k` is checked against the budget. */
  function CheckTime<T>(calls: seq<Call<T>>, script: seq<Attempt<T>>, t0: real, k: nat): real
    requires k <= |calls| && k < |script|
  {
    (if k == 0 then t0 else calls[k - 1].finish + script[k - 1].refresh + Pause(script[k - 1])) + script[k].before
  }

  /** A call that happened when and how the environment says it did. */
  predicate FollowsScript<T(==)>(c: Call<T>, a: Attempt<T>) {
    && c.outcome == a.outcome
    && c.start == c.checkedAt + a.lag
    && c.finish == c.start + a.duration
  }

  /** The call was started with budget left, and asked for exactly what was left. */
  predicate WithinBudget<T>(c: Call<T>, timeout: Option<real>, t0: real) {
    if timeout.None? then c.timeout == None
    else
      && c.checkedAt - t0 < Budget(timeout)
      && c.timeout == Some(MaxReal(MIN_CALL_TIMEOUT, Budget(timeout) - (c.checkedAt - t0)))
  }

  /** Call `k` follows the script, starts inside the budget and runs on the stub
      that the failure before it left behind. */
  ghost predicate GoodCall<T>(calls: seq<Call<T>>, script: seq<Attempt<T>>, t0: real, timeout: Option<real>,
                              stub: nat, resolvable: bool, k: nat)
    requires k < |calls| <= |script|
  {
    && FollowsScript(calls[k], script[k])
    && calls[k].checkedAt == CheckTime(calls, script, t0, k)
    && WithinBudget(calls[k], timeout, t0)
    && calls[k].stub == stub + if resolvable then k else 0
  }

  ghost predicate History<T>(calls: seq<Call<T>>, script: seq<Attempt<T>>, t0: real, timeout: Option<real>,
                             stub: nat, resolvable: bool)
  {
    && |calls| <= |script|
    && forall k | 0 <= k < |calls| :: GoodCall(calls, script, t0, timeout, stub, resolvable, k)
  }

  lemma ExtendHistory<T>(calls: seq<Call<T>>, c: Call<T>, script: seq<Attempt<T>>, t0: real, timeout: Option<real>,
                         stub: nat, resolvable: bool)
    requires History(calls, script, t0, timeout, stub, resolvable) && |calls| < |script|
    requires FollowsScript(c, script[|calls|]) && WithinBudget(c, timeout, t0)
    requires c.checkedAt == CheckTime(calls, script, t0, |calls|)
    requires c.stub == stub + if resolvable then |calls| else 0
    ensures History(calls + [c], script, t0, timeout, stub, resolvable)
  {
    var next := calls + [c];
    forall k | 0 <= k < |next|
      ensures GoodCall(next, script, t0, timeout, stub, resolvable, k)
    {
      if k < |calls| {
        assert GoodCall(calls, script, t0, timeout, stub, resolvable, k);
      }
    }
  }

  predicate AllTransient<T>(calls: seq<Call<T>>, n: nat)
    requires n <= |calls|
  {
    forall k | 0 <= k < n :: calls[k].outcome.Error? && Transient(calls[k].outcome.code)
  }

  /** The four codes after which a call is made again. */
  predicate IsRetried<T>(o: Outcome<T>) {
    o.Error? && (o.code == Unavailable || o.code == Internal || o.code == Unknown || o.code == DeadlineExceeded)
  }

  /** The loop stops when its last call finishes, or at the budget check that follows a retry. */
  ghost predicate StopsAt<T>(end: real, calls: seq<Call<T>>, script: seq<Attempt<T>>, t0: real, timeout: Option<real>)
    requires 0 < |calls| <= |script|
  {
    var last := calls[|calls| - 1];
    || end == last.finish
    || (|calls| < |script| && end == CheckTime(calls, script, t0, |calls|)
        && timeout.Some? && last.finish - t0 < Budget(timeout))
  }

  predicate HonoursDeadline<T>(c: Call<T>) {
    c.timeout.Some? ==> c.finish - c.start <= c.timeout.value
  }

  class DaemonCtl {
    var created: nat       // channels created so far; channels are numbered from 1
    var channel: nat
    var stub: nat          // the channel that the current stub is bound to
    var closed: set<nat>

    ghost predicate Valid()
      reads this
    {
      && stub == channel && channel == created && channel !in closed
      && forall c | c in closed :: c < created
    }

    constructor ()
      ensures Valid() && created == 1
    {
      created, channel, stub, closed := 1, 1, 1, {};
    }

    method RefreshChannel()
      requires Valid()
      modifies this
      ensures Valid()
      ensures created == old(created) + 1 && closed == old(closed) + {old(channel)}
    {
      closed := closed + {channel};
      created := created + 1;
      channel := created;
      stub := channel;
    }

    /** At most `retries + 1` calls; all but the last fail with a transient code;
        each starts with budget left, on a channel opened after the failure before
        it when the method can be looked up again; the last one decides the result;
        and a transient failure is given up early only when the budget is spent. */
    method UnaryCall<T(==)>(timeout: Option<real>, retries: int, resolvable: bool, t0: real, script: seq<Attempt<T>>)
      returns (res: CallResult<T>, calls: seq<Call<T>>, end: real)
      requires Valid()
      requires |script| == Max(0, retries + 1)
      requires forall k | 0 <= k < |script| :: Plausible(script[k])
      modifies this
      ensures Valid()
      ensures |calls| <= Max(0, retries + 1)
      ensures History(calls, script, t0, timeout, old(stub), resolvable)
      ensures forall k | 0 <= k < |calls| - 1 :: IsRetried(calls[k].outcome)
      ensures calls == [] <==> script == [] || (timeout.Some? && timeout.value <= script[0].before)
      ensures res == (if calls == [] then AssertionFailed
                      else match calls[|calls| - 1].outcome
                        case Response(v) => Returned(v)
                        case Error(code) => Raised(code))
      ensures calls != [] ==> StopsAt(end, calls, script, t0, timeout)
      ensures calls != [] && IsRetried(calls[|calls| - 1].outcome) && |calls| < |script| ==>
                timeout.Some? && end - t0 >= timeout.value
      ensures old(created) + Max(0, |calls| - 1) <= created <= old(created) + |calls|
    {
      var current := stub;
      var lastError: Option<Code> := None;
      var now := t0;
      var attempt := 0;
      calls := [];
      while attempt <= retries
        invariant Valid()
        invariant 0 <= attempt <= |script| && (attempt > 0 ==> attempt <= retries)
        invariant |calls| == attempt && created == old(created) + attempt
        invariant current == old(stub) + if resolvable then Max(0, attempt - 1) else 0
        invariant History(calls, script, t0, timeout, old(stub), resolvable)
        invariant AllTransient(calls, attempt)
        invariant lastError == (if calls == [] then None else Some(calls[attempt - 1].outcome.code))
        invariant attempt <= retries ==> now + script[attempt].before == CheckTime(calls, script, t0, attempt)
        invariant attempt > 0 && timeout.Some? ==> calls[attempt - 1].finish - t0 < Budget(timeout)
      {
        var a := script[attempt];
        var callTimeout := timeout;
        now := now + a.before;
        if timeout.Some? {
          var remaining := Budget(timeout) - (now - t0);
          if remaining <= 0.0 {
            break;
          }
          callTimeout := Some(MaxReal(MIN_CALL_TIMEOUT, remaining));
        }
        if attempt > 0 && resolvable {
          current := stub;
        }
        var call := Call(now, now + a.lag, now + a.lag + a.duration, callTimeout, current, a.outcome);
        ExtendHistory(calls, call, script, t0, timeout, old(stub), resolvable);
        calls := calls + [call];
        now := call.finish;
        if a.outcome.Response? {
          assert GoodCall(calls, script, t0, timeout, old(stub), resolvable, 0);
          return Returned(a.outcome.value), calls, now;
        }
        lastError := Some(a.outcome.code);
        if !(Transient(a.outcome.code) && attempt < retries) {
          break;
        }
        if timeout.Some? && Budget(timeout) - (now - t0) <= 0.0 {
          break;
        }
        RefreshChannel();
        now := now + a.refresh;
        now := now + Pause(a);
        attempt := attempt + 1;
      }
      assert calls != [] ==> GoodCall(calls, script, t0, timeout, old(stub), resolvable, 0);
      end := now;
      res := if lastError.None? then AssertionFailed else Raised(lastError.value);
    }
  }

  /** If the last RPC honours its deadline, a call that ends with it overruns the budget
      by at most the delay in starting it and the millisecond granted to a nearly spent
      budget. A call that ends at the check after it overruns by at most 0.15 s of pause,
      one channel refresh and the time to reach the check. */
  lemma RetryDeadline<T>(calls: seq<Call<T>>, script: seq<Attempt<T>>, t0: real, timeout: Option<real>, stub: nat,
                         resolvable: bool, end: real)
    requires History(calls, script, t0, timeout, stub, resolvable) && calls != [] && timeout.Some?
    requires StopsAt(end, calls, script, t0, timeout)
    requires (forall k | 0 <= k < |script| :: Plausible(script[k])) && HonoursDeadline(calls[|calls| - 1])
    ensures var n := |calls|;
            if end == calls[n - 1].finish then end - t0 <= timeout.value + 0.001 + script[n - 1].lag
            else n < |script| && end - t0 < timeout.value + script[n - 1].refresh + 0.15 + script[n].before
  {
    var n := |calls|;
    assert GoodCall(calls, script, t0, timeout, stub, resolvable, n - 1);
    StartsAfter(calls, script, t0, timeout, stub, resolvable, n - 1);
    assert Plausible(script[n - 1]) && Pause(script[n - 1]) <= 0.15;
  }

  /** Every call starts with time left and asks for exactly the time left, or for a
      millisecond where less is left; without a limit it asks for none. */
  lemma CallsGetTheTimeLeft<T>(calls: seq<Call<T>>, script: seq<Attempt<T>>, t0: real, timeout: Option<real>, stub: nat,
                               resolvable: bool, k: nat)
    requires History(calls, script, t0, timeout, stub, resolvable) && k < |calls|
    requires forall j | 0 <= j < |script| :: Plausible(script[j])
    ensures timeout.None? ==> calls[k].timeout.None?
    ensures timeout.Some? ==>
              var left := timeout.value - (calls[k].checkedAt - t0);
              left > 0.0 && calls[k].timeout == Some(if left < 0.001 then 0.001 else left)
  {
    assert GoodCall(calls, script, t0, timeout, stub, resolvable, k);
    StartsAfter(calls, script, t0, timeout, stub, resolvable, k);
  }

  /** Calls never overlap: each retry is checked at least 50 ms after the failure before it. */
  lemma CallsAreSequential<T>(calls: seq<Call<T>>, script: seq<Attempt<T>>, t0: real, timeout: Option<real>, stub: nat,
                              resolvable: bool, i: nat, j: nat)
    requires History(calls, script, t0, timeout, stub, resolvable) && i < j < |calls|
    requires forall k | 0 <= k < |script| :: Plausible(script[k])
    ensures t0 <= calls[i].start <= calls[i].finish
    ensures calls[i].finish + 0.05 * (j - i) as real <= calls[j].checkedAt <= calls[j].start
    decreases j
  {
    assert GoodCall(calls, script, t0, timeout, stub, resolvable, j);
    assert Plausible(script[j]) && Plausible(script[j - 1]);
    StartsAfter(calls, script, t0, timeout, stub, resolvable, j - 1);
    if i < j - 1 {
      CallsAreSequential(calls, script, t0, timeout, stub, resolvable, i, j - 1);
    }
  }

  lemma {:induction false} StartsAfter<T>(calls: seq<Call<T>>, script: seq<Attempt<T>>, t0: real, timeout: Option<real>,
                                          stub: nat, resolvable: bool, k: nat)
    requires History(calls, script, t0, timeout, stub, resolvable) && k < |calls|
    requires forall j | 0 <= j < |script| :: Plausible(script[j])
    ensures t0 <= calls[k].checkedAt <= calls[k].start <= calls[k].finish
  {
    assert GoodCall(calls, script, t0, timeout, stub, resolvable, k) && Plausible(script[k]);
    if k > 0 {
      assert Plausible(script[k - 1]);
      StartsAfter(calls, script, t0, timeout, stub, resolvable, k - 1);
    }
  }
}
