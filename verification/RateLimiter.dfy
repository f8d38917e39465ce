/** The BFF's per-client token bucket: services/bff/internal/http/ratelimit.go. */
module RateLimiting {

  /** rate is in tokens a second; neither number is restricted by the source. */
  datatype Config = Config(rate: real, burst: int)

  /** One call of `allow`: the client key and the clock reading, in nanoseconds. */
  datatype Call = Call(key: string, at: int)

  datatype Level = Level(tokens: real, last: int)

  /** All buckets and every answer given so far. */
  datatype State = State(levels: map<string, Level>, answers: seq<bool>)

  /** Tokens that accrue between two clock readings. */
  function Earned(c: Config, from: int, to: int): real {
    (to - from) as real / 1000000000.0 * c.rate
  }

  function LevelOf(c: Config, levels: map<string, Level>, key: string, now: int): Level {
    if key in levels then levels[key] else Level(c.burst as real, now)
  }

  function Refill(c: Config, b: Level, now: int): real {
    var t := b.tokens + Earned(c, b.last, now);
    if t > c.burst as real then c.burst as real else t
  }

  function Taken(c: Config, b: Level, now: int): (Level, bool) {
    var t := Refill(c, b, now);
    if t < 1.0 then (Level(t, now), false) else (Level(t - 1.0, now), true)
  }

  /** The level on which a call at `now` decides. */
  function Refilled(c: Config, levels: map<string, Level>, key: string, now: int): real {
    Refill(c, LevelOf(c, levels, key, now), now)
  }

  function Step(c: Config, s: State, call: Call): State {
    var (level, ok) := Taken(c, LevelOf(c, s.levels, call.key, call.at), call.at);
    State(s.levels[call.key := level], s.answers + [ok])
  }

  function Run(c: Config, calls: seq<Call>): (s: State)
    ensures |s.answers| == |calls|
  {
    if calls == [] then State(map[], [])
    else Step(c, Run(c, calls[..|calls| - 1]), calls[|calls| - 1])
  }

  /** Calls on `key` admitted in positions lo..hi-1 of a run. */
  function Admitted(calls: seq<Call>, answers: seq<bool>, key: string, lo: nat, hi: nat): (n: nat)
    requires lo <= hi <= |calls| && hi <= |answers|
  {
    if lo == hi then 0
    else Admitted(calls, answers, key, lo, hi - 1)
         + if calls[hi - 1].key == key && answers[hi - 1] then 1 else 0
  }

  /** Admitting call n keeps every window that starts at a call of the same client and ends at n
      within burst + rate * length. */
  ghost predicate WithinBound(c: Config, calls: seq<Call>, answers: seq<bool>, n: nat)
    requires n < |calls| && n <= |answers|
  {
    forall i: nat :: i <= n && calls[i].key == calls[n].key ==> WindowOk(c, calls, answers, i, n)
  }

  ghost predicate WindowOk(c: Config, calls: seq<Call>, answers: seq<bool>, i: nat, n: nat)
    requires i <= n < |calls| && n <= |answers|
  {
    Earns(c.rate, calls[n].at - calls[i].at, Admitted(calls, answers, calls[n].key, i, n) + 1 - c.burst)
  }

  /** At this rate, so many nanoseconds earn at least so many tokens. */
  predicate Earns(rate: real, elapsed: int, tokens: int) {
    tokens as real * 1000000000.0 <= rate * elapsed as real
  }

  /** The same as what the client earns in the window. */
  ghost predicate EarnedOk(c: Config, calls: seq<Call>, answers: seq<bool>, i: nat, n: nat)
    requires i <= n < |calls| && n <= |answers|
  {
    (Admitted(calls, answers, calls[n].key, i, n) + 1) as real
      <= c.burst as real + Earned(c, calls[i].at, calls[n].at)
  }

  lemma Scaled(a: real, b: real, x: real, y: real)
    requires x == a * 1000000000.0 && y == b * 1000000000.0
    ensures x <= y <==> a <= b
  {
  }

  lemma WindowIsEarned(c: Config, calls: seq<Call>, answers: seq<bool>, i: nat, n: nat)
    requires i <= n < |calls| && n <= |answers|
    ensures WindowOk(c, calls, answers, i, n) <==> EarnedOk(c, calls, answers, i, n)
  {
    var more: int := Admitted(calls, answers, calls[n].key, i, n) + 1 - c.burst;
    InNanoseconds(c, calls[i].at, calls[n].at);
    Scaled(more as real, Earned(c, calls[i].at, calls[n].at), more as real * 1000000000.0,
           c.rate * (calls[n].at - calls[i].at) as real);
  }

  lemma InNanoseconds(c: Config, from: int, to: int)
    ensures Earned(c, from, to) * 1000000000.0 == c.rate * (to - from) as real
  {
    var d := (to - from) as real / 1000000000.0;
    assert d * 1000000000.0 == (to - from) as real;
    assert Earned(c, from, to) * 1000000000.0 == d * c.rate * 1000000000.0 == d * 1000000000.0 * c.rate;
  }

  /** Admitted is the number of calls on the key with a positive answer. */
  lemma {:induction false} AdmittedIsCount(calls: seq<Call>, answers: seq<bool>, key: string, lo: nat, hi: nat)
    requires lo <= hi <= |calls| && hi <= |answers|
    ensures Admitted(calls, answers, key, lo, hi) == |set k: nat | lo <= k < hi && calls[k].key == key && answers[k]|
  {
    if lo < hi {
      AdmittedIsCount(calls, answers, key, lo, hi - 1);
      OneMoreCounted(calls, answers, key, lo, hi, set k: nat | lo <= k < hi - 1 && calls[k].key == key && answers[k],
                     set k: nat | lo <= k < hi && calls[k].key == key && answers[k]);
    }
  }

  lemma OneMoreCounted(
      calls: seq<Call>, answers: seq<bool>, key: string, lo: nat, hi: nat, before: set<nat>, after: set<nat>)
    requires lo < hi <= |calls| && hi <= |answers|
    requires forall k: nat :: k in before <==> lo <= k < hi - 1 && calls[k].key == key && answers[k]
    requires forall k: nat :: k in after <==> lo <= k < hi && calls[k].key == key && answers[k]
    ensures |after| == |before| + if calls[hi - 1].key == key && answers[hi - 1] then 1 else 0
  {
    if calls[hi - 1].key == key && answers[hi - 1] {
      assert after == before + {hi - 1};
    } else {
      assert after == before;
    }
  }

  /** What is left of the window that starts at call i, for a call on the same key at `now`. */
  ghost function Slack(c: Config, calls: seq<Call>, answers: seq<bool>, i: nat, now: int): real
    requires i < |calls| == |answers|
  {
    c.burst as real + Earned(c, calls[i].at, now)
      - Admitted(calls, answers, calls[i].key, i, |calls|) as real
  }

  lemma EarnedAdds(c: Config, x: int, y: int, z: int)
    ensures Earned(c, x, y) + Earned(c, y, z) == Earned(c, x, z)
  {
    var p, q := (y - x) as real / 1000000000.0, (z - y) as real / 1000000000.0;
    assert p + q == (z - x) as real / 1000000000.0;
    assert p * c.rate + q * c.rate == (p + q) * c.rate;
  }

  lemma {:induction false} AdmittedPrefix(calls: seq<Call>, answers: seq<bool>, more: seq<Call>, given: seq<bool>,
                                          key: string, lo: nat, hi: nat)
    requires lo <= hi <= |calls| && hi <= |answers|
    ensures Admitted(calls + more, answers + given, key, lo, hi) == Admitted(calls, answers, key, lo, hi)
  {
    if lo < hi {
      AdmittedPrefix(calls, answers, more, given, key, lo, hi - 1);
    }
  }

  lemma {:induction false} AdmittedSplits(calls: seq<Call>, answers: seq<bool>, key: string, lo: nat, mid: nat, hi: nat)
    requires lo <= mid <= hi <= |calls| && hi <= |answers|
    ensures Admitted(calls, answers, key, lo, hi)
         == Admitted(calls, answers, key, lo, mid) + Admitted(calls, answers, key, mid, hi)
  {
    if mid < hi {
      AdmittedSplits(calls, answers, key, lo, mid, hi - 1);
    }
  }

  /** One more call on the same key lowers every older slack alike and opens a window of its own. */
  lemma SlackAfterOwn(c: Config, calls: seq<Call>, n: nat, s0: seq<bool>, s: seq<bool>, i: nat, now: int, paid: real)
    requires i <= n && |calls| == n + 1 && |s0| == n && |s| == n + 1 && s == s0 + [s[n]] && calls[i].key == calls[n].key
    requires paid == if s[n] then 1.0 else 0.0
    ensures i == n ==> Slack(c, calls, s, i, now) == c.burst as real - paid + Earned(c, calls[n].at, now)
    ensures i < n ==>
        Slack(c, calls, s, i, now) == Slack(c, calls[..n], s0, i, calls[n].at) - paid + Earned(c, calls[n].at, now)
  {
    var key := calls[i].key;
    if i < n {
      assert calls == calls[..n] + [calls[n]];
      AdmittedPrefix(calls[..n], s0, [calls[n]], [s[n]], key, i, n);
      EarnedAdds(c, calls[i].at, calls[n].at, now);
    } else {
      assert Admitted(calls, s, key, n, n) == 0;
    }
  }

  lemma SlackAfterOther(c: Config, calls: seq<Call>, n: nat, s0: seq<bool>, s: seq<bool>, i: nat, now: int)
    requires i < n && |calls| == n + 1 && |s0| == n && |s| == n + 1 && s == s0 + [s[n]] && calls[i].key != calls[n].key
    ensures Slack(c, calls, s, i, now) == Slack(c, calls[..n], s0, i, now)
  {
    assert calls == calls[..n] + [calls[n]];
    AdmittedPrefix(calls[..n], s0, [calls[n]], [s[n]], calls[i].key, i, n);
  }

  /** The bucket level has a closed form: it is the least of `burst` and of the slack of every
      window that starts at an earlier call of that client. */
  lemma {:induction false} LevelIsLeastSlack(c: Config, calls: seq<Call>, key: string, now: int)
    ensures
      var s := Run(c, calls);
      var t := Refilled(c, s.levels, key, now);
      && (key in s.levels <==> exists i: nat :: i < |calls| && calls[i].key == key)
      && t <= c.burst as real
      && (forall i: nat :: i < |calls| && calls[i].key == key ==> t <= Slack(c, calls, s.answers, i, now))
      && (t == c.burst as real
          || exists i: nat :: i < |calls| && calls[i].key == key && t == Slack(c, calls, s.answers, i, now))
  {
    if calls != [] {
      var n := |calls| - 1;
      var before, last := calls[..n], calls[n];
      var s0, s := Run(c, before), Run(c, calls);
      if last.key == key {
        LevelIsLeastSlack(c, before, key, last.at);
        var paid := if s.answers[n] then 1.0 else 0.0;
        var t0 := Refilled(c, s0.levels, key, last.at) - paid + Earned(c, last.at, now);
        assert Refilled(c, s.levels, key, now) == if t0 > c.burst as real then c.burst as real else t0;
        forall i: nat | i <= n && calls[i].key == key
          ensures i == n ==> Slack(c, calls, s.answers, i, now) == c.burst as real - paid + Earned(c, last.at, now)
          ensures i < n ==>
              Slack(c, calls, s.answers, i, now)
                  == Slack(c, before, s0.answers, i, last.at) - paid + Earned(c, last.at, now)
        {
          SlackAfterOwn(c, calls, n, s0.answers, s.answers, i, now, paid);
        }
      } else {
        LevelIsLeastSlack(c, before, key, now);
        forall i: nat | i < n && calls[i].key == key
          ensures Slack(c, calls, s.answers, i, now) == Slack(c, before, s0.answers, i, now)
        {
          SlackAfterOther(c, calls, n, s0.answers, s.answers, i, now);
        }
      }
    }
  }

  /** Exactness for the newest call. */
  lemma NextAnswer(c: Config, calls: seq<Call>, call: Call)
    ensures Run(c, calls + [call]) == Step(c, Run(c, calls), call)
    ensures Run(c, calls + [call]).answers[|calls|]
        <==> WithinBound(c, calls + [call], Run(c, calls).answers, |calls|)
  {
    NextByEarned(c, calls, call);
    forall i: nat | i <= |calls| {
      WindowIsEarned(c, calls + [call], Run(c, calls).answers, i, |calls|);
    }
  }

  lemma NextByEarned(c: Config, calls: seq<Call>, call: Call)
    ensures Run(c, calls + [call]) == Step(c, Run(c, calls), call)
    ensures
      var n, all := |calls|, calls + [call];
      Run(c, all).answers[n] <==>
        forall i: nat :: i <= n && all[i].key == call.key ==> EarnedOk(c, all, Run(c, calls).answers, i, n)
  {
    var n, all, ans := |calls|, calls + [call], Run(c, calls).answers;
    assert all[..n] == calls;
    LevelIsLeastSlack(c, calls, call.key, call.at);
    forall i: nat | i < n && all[i].key == call.key
      ensures EarnedOk(c, all, ans, i, n) <==> Slack(c, calls, ans, i, call.at) >= 1.0
    {
      AdmittedPrefix(calls, ans, [call], [], call.key, i, n);
      assert ans + [] == ans;
    }
    assert EarnedOk(c, all, ans, n, n) <==> c.burst as real >= 1.0;
  }

  lemma {:induction false} RunPrefix(c: Config, calls: seq<Call>, n: nat)
    requires n <= |calls|
    ensures Run(c, calls[..n]).answers == Run(c, calls).answers[..n]
  {
    if n < |calls| {
      RunPrefix(c, calls[..|calls| - 1], n);
      assert calls[..|calls| - 1][..n] == calls[..n];
    } else {
      assert calls[..n] == calls;
    }
  }

  /** WindowOk with everything but the calls given in numbers. */
  ghost predicate CountOk(rate: real, burst: int, now: int, calls: seq<Call>, admitted: seq<nat>, i: nat)
    requires i < |calls| && i < |admitted|
  {
    Earns(rate, now - calls[i].at, admitted[i] + 1 - burst)
  }

  lemma NumbersToCounts(rate: real, burst: int, key: string, now: int, calls: seq<Call>, admitted: seq<nat>)
    requires |calls| == |admitted|
    requires forall i: nat :: i < |calls| && calls[i].key == key ==>
      (admitted[i] + 1 - burst) as real * 1000000000.0 <= rate * (now - calls[i].at) as real
    ensures forall i: nat :: i < |calls| && calls[i].key == key ==> CountOk(rate, burst, now, calls, admitted, i)
  {
  }

  lemma CountsToNumbers(rate: real, burst: int, key: string, now: int, calls: seq<Call>, admitted: seq<nat>)
    requires |calls| == |admitted|
    requires forall i: nat :: i < |calls| && calls[i].key == key ==> CountOk(rate, burst, now, calls, admitted, i)
    ensures forall i: nat :: i < |calls| && calls[i].key == key ==>
      (admitted[i] + 1 - burst) as real * 1000000000.0 <= rate * (now - calls[i].at) as real
  {
  }

  lemma CountsInNumbers(
      rate: real, burst: int, key: string, now: int, calls: seq<Call>, admitted: seq<nat>, ok: bool)
    requires |calls| == |admitted|
    requires ok <==>
      forall i: nat :: i < |calls| && calls[i].key == key ==> CountOk(rate, burst, now, calls, admitted, i)
    ensures ok <==> forall i: nat :: i < |calls| && calls[i].key == key ==>
      (admitted[i] + 1 - burst) as real * 1000000000.0 <= rate * (now - calls[i].at) as real
  {
    if ok {
      CountsToNumbers(rate, burst, key, now, calls, admitted);
    }
    if forall i: nat :: i < |calls| && calls[i].key == key ==>
      (admitted[i] + 1 - burst) as real * 1000000000.0 <= rate * (now - calls[i].at) as real
    {
      NumbersToCounts(rate, burst, key, now, calls, admitted);
    }
  }

  lemma CountIsWindow(c: Config, calls: seq<Call>, answers: seq<bool>, admitted: seq<nat>, i: nat, n: nat)
    requires i <= n < |calls| && n < |admitted| && n <= |answers|
    requires admitted[i] == Admitted(calls, answers, calls[n].key, i, n)
    ensures CountOk(c.rate, c.burst, calls[n].at, calls, admitted, i) <==> WindowOk(c, calls, answers, i, n)
  {
  }

  lemma BoundIsCounts(
      rate: real, burst: int, calls: seq<Call>, answers: seq<bool>, admitted: seq<nat>, n: nat, ok: bool)
    requires n + 1 == |calls| == |admitted| && n <= |answers|
    requires ok <==> WithinBound(Config(rate, burst), calls, answers, n)
    requires forall i: nat :: i <= n ==>
      admitted[i] == |set k: nat | i <= k < n && calls[k].key == calls[n].key && answers[k]|
    ensures ok <==> forall i: nat :: i < |calls| && calls[i].key == calls[n].key ==>
      CountOk(rate, burst, calls[n].at, calls, admitted, i)
  {
    forall i: nat | i <= n
      ensures CountOk(rate, burst, calls[n].at, calls, admitted, i)
        <==> WindowOk(Config(rate, burst), calls, answers, i, n)
    {
      AdmittedIsCount(calls, answers, calls[n].key, i, n);
      CountIsWindow(Config(rate, burst), calls, answers, admitted, i, n);
    }
  }

  ghost function Counts(calls: seq<Call>, answers: seq<bool>, n: nat): (admitted: seq<nat>)
    requires n < |calls| && n <= |answers|
    ensures |admitted| == n + 1 && forall i: nat :: i <= n ==>
      admitted[i] == |set k: nat | i <= k < n && calls[k].key == calls[n].key && answers[k]|
  {
    seq(n + 1, i requires 0 <= i <= n => |set k: nat | i <= k < n && calls[k].key == calls[n].key && answers[k]|)
  }

  lemma InNumbers(
      rate: real, burst: int, key: string, now: int, calls: seq<Call>, answers: seq<bool>, n: nat, ok: bool)
    returns (admitted: seq<nat>)
    requires |calls| == n + 1 && calls[n] == Call(key, now) && n <= |answers|
    requires ok <==> WithinBound(Config(rate, burst), calls, answers, n)
    ensures |admitted| == n + 1 && forall i: nat :: i <= n ==>
      admitted[i] == |set k: nat | i <= k < n && calls[k].key == key && answers[k]|
    ensures ok <==> forall i: nat :: i < |calls| && calls[i].key == key ==>
      (admitted[i] + 1 - burst) as real * 1000000000.0 <= rate * (now - calls[i].at) as real
  {
    admitted := Counts(calls, answers, n);
    BoundIsCounts(rate, burst, calls, answers, admitted, n, ok);
    CountsInNumbers(rate, burst, key, now, calls, admitted, ok);
  }

  /** A call is admitted if and only if, together with the calls admitted before, it keeps every window of the
      same client that ends with it within burst + rate * length; admitted[i] counts those admitted since call i.
      No assumption on rate, burst or the clock; the calls of other clients do not occur in the condition. Times
      are in nanoseconds, the rate in tokens a second. */
  lemma AllowedIffWithinBound(
      rate: real, burst: int, key: string, now: int, calls: seq<Call>, answers: seq<bool>, n: nat)
    returns (admitted: seq<nat>)
    requires |calls| == n + 1 && calls[n] == Call(key, now) && answers == Run(Config(rate, burst), calls).answers
    ensures |admitted| == n + 1 && forall i: nat :: i <= n ==>
      admitted[i] == |set k: nat | i <= k < n && calls[k].key == key && answers[k]|
    ensures answers[n] <==> forall i: nat :: i < |calls| && calls[i].key == key ==>
      (admitted[i] + 1 - burst) as real * 1000000000.0 <= rate * (now - calls[i].at) as real
  {
    AllowedByWindows(Config(rate, burst), calls, n);
    admitted := InNumbers(rate, burst, key, now, calls, answers, n, answers[n]);
  }

  lemma WindowOfPrefix(c: Config, calls: seq<Call>, ans: seq<bool>, i: nat, n: nat)
    requires i <= n < |calls| && n <= |ans|
    ensures WindowOk(c, calls[..n + 1], ans[..n], i, n) <==> WindowOk(c, calls, ans, i, n)
  {
    assert calls == calls[..n + 1] + calls[n + 1..] && ans == ans[..n] + ans[n..];
    AdmittedPrefix(calls[..n + 1], ans[..n], calls[n + 1..], ans[n..], calls[n].key, i, n);
  }

  lemma AllowedByWindows(c: Config, calls: seq<Call>, n: nat)
    requires n < |calls|
    ensures Run(c, calls).answers[n] <==> WithinBound(c, calls, Run(c, calls).answers, n)
  {
    var all, ans := calls[..n + 1], Run(c, calls).answers;
    NextAnswer(c, calls[..n], calls[n]);
    assert calls[..n] + [calls[n]] == all;
    RunPrefix(c, calls, n);
    RunPrefix(c, calls, n + 1);
    forall i: nat | i <= n ensures WindowOk(c, all, ans[..n], i, n) <==> WindowOk(c, calls, ans, i, n) {
      WindowOfPrefix(c, calls, ans, i, n);
    }
  }

  /** A policy never admits a call that would break the window bound. */
  ghost predicate Conforms(c: Config, calls: seq<Call>, policy: seq<bool>)
  {
    |policy| == |calls|
    && forall n: nat :: n < |calls| && policy[n] ==> WithinBound(c, calls, policy, n)
  }

  lemma LimiterConforms(c: Config, calls: seq<Call>)
    ensures Conforms(c, calls, Run(c, calls).answers)
  {
    forall n: nat | n < |calls| && Run(c, calls).answers[n]
      ensures WithinBound(c, calls, Run(c, calls).answers, n)
    {
      AllowedByWindows(c, calls, n);
    }
  }

  /** Optimality: at no point of any run has a conforming policy admitted more calls of a client. */
  lemma {:induction false} LimiterIsOptimal(c: Config, calls: seq<Call>, policy: seq<bool>, key: string, n: nat)
    requires Conforms(c, calls, policy) && n <= |calls|
    ensures Admitted(calls, policy, key, 0, n) <= Admitted(calls, Run(c, calls).answers, key, 0, n)
  {
    var ans := Run(c, calls).answers;
    if n > 0 {
      var m := n - 1;
      LimiterIsOptimal(c, calls, policy, key, m);
      if calls[m].key == key && policy[m] && !ans[m] {
        AllowedByWindows(c, calls, m);
        var i: nat :| i <= m && calls[i].key == key && !WindowOk(c, calls, ans, i, m);
        assert WindowOk(c, calls, policy, i, m);
        LimiterIsOptimal(c, calls, policy, key, i);
        AdmittedSplits(calls, policy, key, 0, i, m);
        AdmittedSplits(calls, ans, key, 0, i, m);
      }
    }
  }

  /** Calls of any client in `keys` admitted among the first n. */
  function AdmittedIn(calls: seq<Call>, answers: seq<bool>, keys: set<string>, n: nat): nat
    requires n <= |calls| && n <= |answers|
  {
    if n == 0 then 0
    else AdmittedIn(calls, answers, keys, n - 1)
         + if calls[n - 1].key in keys && answers[n - 1] then 1 else 0
  }

  lemma {:induction false} AdmittedInSplits(
      calls: seq<Call>, answers: seq<bool>, keys: set<string>, key: string, n: nat)
    requires n <= |calls| && n <= |answers| && key in keys
    ensures AdmittedIn(calls, answers, keys, n)
         == AdmittedIn(calls, answers, keys - {key}, n) + Admitted(calls, answers, key, 0, n)
  {
    if n > 0 {
      AdmittedInSplits(calls, answers, keys, key, n - 1);
    }
  }

  lemma {:induction false} NoneAdmittedInEmpty(calls: seq<Call>, answers: seq<bool>, n: nat)
    requires n <= |calls| && n <= |answers|
    ensures AdmittedIn(calls, answers, {}, n) == 0
  {
    if n > 0 {
      NoneAdmittedInEmpty(calls, answers, n - 1);
    }
  }

  /** Optimality over any group of clients, hence over all of them together. */
  lemma {:induction false} LimiterIsOptimalInTotal(
      c: Config, calls: seq<Call>, policy: seq<bool>, keys: set<string>, n: nat)
    requires Conforms(c, calls, policy) && n <= |calls|
    ensures AdmittedIn(calls, policy, keys, n) <= AdmittedIn(calls, Run(c, calls).answers, keys, n)
    decreases |keys|
  {
    var ans := Run(c, calls).answers;
    if keys == {} {
      NoneAdmittedInEmpty(calls, policy, n);
    } else {
      var key :| key in keys;
      LimiterIsOptimal(c, calls, policy, key, n);
      LimiterIsOptimalInTotal(c, calls, policy, keys - {key}, n);
      AdmittedInSplits(calls, policy, keys, key, n);
      AdmittedInSplits(calls, ans, keys, key, n);
    }
  }

  function CallsOf(calls: seq<Call>, key: string): seq<Call> {
    if calls == [] then []
    else CallsOf(calls[..|calls| - 1], key)
         + if calls[|calls| - 1].key == key then [calls[|calls| - 1]] else []
  }

  function AnswersOf(calls: seq<Call>, answers: seq<bool>, key: string): seq<bool>
    requires |calls| == |answers|
  {
    if calls == [] then []
    else AnswersOf(calls[..|calls| - 1], answers[..|calls| - 1], key)
         + if calls[|calls| - 1].key == key then [answers[|calls| - 1]] else []
  }

  /** The answers to one client are those it would get if it were alone. */
  lemma {:induction false} ClientsAreIndependent(c: Config, calls: seq<Call>, key: string)
    ensures AnswersOf(calls, Run(c, calls).answers, key) == Run(c, CallsOf(calls, key)).answers
    ensures
      var all, alone := Run(c, calls).levels, Run(c, CallsOf(calls, key)).levels;
      (key in all <==> key in alone) && (key in all ==> all[key] == alone[key])
  {
    if calls != [] {
      var n := |calls| - 1;
      ClientsAreIndependent(c, calls[..n], key);
      var s0, s := Run(c, calls[..n]), Run(c, calls);
      var own := CallsOf(calls[..n], key);
      assert s == Step(c, s0, calls[n]) && s.answers[..n] == s0.answers;
      if calls[n].key == key {
        assert CallsOf(calls, key)[..|own|] == own;
        assert Run(c, CallsOf(calls, key)) == Step(c, Run(c, own), calls[n]);
      } else {
        assert CallsOf(calls, key) == own;
        assert AnswersOf(calls, s.answers, key) == AnswersOf(calls[..n], s0.answers, key);
      }
    }
  }

  class Bucket {
    var tokens: real
    var last: int

    constructor (tokens: real, last: int)
      ensures this.tokens == tokens && this.last == last
    {
      this.tokens := tokens;
      this.last := last;
    }

    ghost function Value(): Level
      reads this
    {
      Level(tokens, last)
    }

    /** Refills the bucket up to `now` and takes a token if there is one. */
    method Take(rate: real, burst: int, now: int) returns (ok: bool)
      modifies this
      ensures (Value(), ok) == Taken(Config(rate, burst), old(Value()), now)
      ensures
        var grown := old(tokens) + rate * (now - old(last)) as real / 1000000000.0;
        var full := if grown > burst as real then burst as real else grown;
        && last == now && (ok <==> full >= 1.0)
        && tokens == if ok then full - 1.0 else full
    {
      var elapsed := (now - last) as real / 1000000000.0;
      tokens := tokens + elapsed * rate;
      if tokens > burst as real {
        tokens := burst as real;
      }
      last := now;
      InNanoseconds(Config(rate, burst), old(last), now);
      assert tokens == Refill(Config(rate, burst), old(Value()), now);
      if tokens < 1.0 {
        return false;
      }
      tokens := tokens - 1.0;
      return true;
    }
  }

  class RateLimiter {
    var buckets: map<string, Bucket>
    const rate: real
    const burst: int
    ghost var calls: seq<Call>
    ghost var answers: seq<bool>

    ghost function Conf(): Config { Config(rate, burst) }

    /** The buckets hold `levels`, each client its own bucket. */
    ghost predicate Holds(levels: map<string, Level>)
      reads this`buckets, buckets.Values
    {
      && buckets.Keys == levels.Keys
      && (forall k :: k in buckets ==> buckets[k].Value() == levels[k])
      && (forall k, l :: k in buckets && l in buckets && k != l ==> buckets[k] != buckets[l])
    }

    ghost predicate Valid()
      reads this, buckets.Values
    {
      Holds(Run(Conf(), calls).levels) && answers == Run(Conf(), calls).answers
    }

    constructor (rate: real, burst: int)
      ensures Valid() && calls == [] && answers == [] && this.rate == rate && this.burst == burst
    {
      this.rate, this.burst := rate, burst;
      buckets := map[];
      calls, answers := [], [];
    }

    /** The bucket of a client, created full when there is none. */
    method BucketFor(key: string, now: int, ghost levels: map<string, Level>) returns (b: Bucket)
      requires Holds(levels)
      modifies this`buckets
      ensures Holds(levels[key := LevelOf(Conf(), levels, key, now)])
      ensures key in buckets && b == buckets[key] && fresh(buckets.Values - old(buckets.Values))
    {
      if key in buckets {
        b := buckets[key];
      } else {
        b := new Bucket(burst as real, now);
        buckets := buckets[key := b];
      }
    }

    /** Takes from the bucket of a client; the others stay. */
    method TakeFor(key: string, now: int, ghost levels: map<string, Level>) returns (ok: bool)
      requires Holds(levels)
      modifies this`buckets, buckets.Values
      ensures
        var taken := Taken(Conf(), LevelOf(Conf(), levels, key, now), now);
        Holds(levels[key := taken.0]) && ok == taken.1
      ensures fresh(buckets.Values - old(buckets.Values))
    {
      var b := BucketFor(key, now, levels);
      ok := b.Take(rate, burst, now);
    }

    /** The map of buckets answers as the run. */
    method Decide(key: string, now: int) returns (ok: bool)
      requires Valid()
      modifies this, buckets.Values
      ensures Valid() && fresh(buckets.Values - old(buckets.Values))
      ensures calls == old(calls) + [Call(key, now)] && answers == old(answers) + [ok] && |old(answers)| == |old(calls)|
      ensures ok <==> WithinBound(Conf(), calls, old(answers), |old(calls)|)
    {
      NextAnswer(Conf(), calls, Call(key, now));
      ok := TakeFor(key, now, Run(Conf(), calls).levels);
      calls, answers := calls + [Call(key, now)], answers + [ok];
    }

    lemma NumbersOfCounts(key: string, admitted: seq<nat>)
      requires |admitted| == |calls| > 0
      requires forall i: nat :: i < |calls| && calls[i].key == key ==>
        CountOk(rate, burst, calls[|calls| - 1].at, calls, admitted, i)
      ensures forall i: nat :: i < |calls| && calls[i].key == key ==>
        (admitted[i] + 1 - burst) as real * 1000000000.0 <= rate * (calls[|calls| - 1].at - calls[i].at) as real
    {
    }

    lemma CountsOfNumbers(key: string, admitted: seq<nat>)
      requires |admitted| == |calls| > 0
      requires forall i: nat :: i < |calls| && calls[i].key == key ==>
        (admitted[i] + 1 - burst) as real * 1000000000.0 <= rate * (calls[|calls| - 1].at - calls[i].at) as real
      ensures forall i: nat :: i < |calls| && calls[i].key == key ==>
        CountOk(rate, burst, calls[|calls| - 1].at, calls, admitted, i)
    {
    }

    lemma CountsAreNumbers(key: string, admitted: seq<nat>, ok: bool)
      requires |admitted| == |calls| > 0
      requires ok <==> forall i: nat :: i < |calls| && calls[i].key == key ==>
        CountOk(rate, burst, calls[|calls| - 1].at, calls, admitted, i)
      ensures ok <==> forall i: nat :: i < |calls| && calls[i].key == key ==>
        (admitted[i] + 1 - burst) as real * 1000000000.0 <= rate * (calls[|calls| - 1].at - calls[i].at) as real
    {
      if ok {
        NumbersOfCounts(key, admitted);
      }
      if forall i: nat :: i < |calls| && calls[i].key == key ==>
        (admitted[i] + 1 - burst) as real * 1000000000.0 <= rate * (calls[|calls| - 1].at - calls[i].at) as real
      {
        CountsOfNumbers(key, admitted);
      }
    }

    lemma LastWindows(key: string, before: seq<bool>, ok: bool) returns (admitted: seq<nat>)
      requires calls != [] && calls[|calls| - 1].key == key && |before| == |calls| - 1
      requires ok <==> WithinBound(Conf(), calls, before, |calls| - 1)
      ensures |admitted| == |calls| && forall i: nat :: i < |calls| ==>
        admitted[i] == |set k: nat | i <= k < |calls| - 1 && calls[k].key == key && before[k]|
      ensures ok <==> forall i: nat :: i < |calls| && calls[i].key == key ==>
        (admitted[i] + 1 - burst) as real * 1000000000.0 <= rate * (calls[|calls| - 1].at - calls[i].at) as real
    {
      admitted := Counts(calls, before, |calls| - 1);
      BoundIsCounts(rate, burst, calls, before, admitted, |calls| - 1, ok);
      CountsAreNumbers(key, admitted, ok);
    }

    /** The clock reading is a parameter. The call is admitted exactly when, with the calls of this client admitted
        since any earlier one of them, or alone, it stays within burst + rate * the time since; admitted[i] counts
        those admitted since call i. */
    method Allow(key: string, now: int) returns (ok: bool, ghost admitted: seq<nat>)
      requires Valid()
      modifies this, buckets.Values
      ensures Valid() && fresh(buckets.Values - old(buckets.Values))
      ensures calls == old(calls) + [Call(key, now)] && answers == old(answers) + [ok] && |old(answers)| == |old(calls)|
      ensures |admitted| == |calls| && forall i: nat :: i < |calls| ==>
        admitted[i] == |set k: nat | i <= k < |calls| - 1 && calls[k].key == key && old(answers)[k]|
      ensures ok <==> forall i: nat :: i < |calls| && calls[i].key == key ==>
        (admitted[i] + 1 - burst) as real * 1000000000.0 <= rate * (calls[|calls| - 1].at - calls[i].at) as real
    {
      ok := Decide(key, now);
      admitted := LastWindows(key, old(answers), ok);
    }
  }
}
