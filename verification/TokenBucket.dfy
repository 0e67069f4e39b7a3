/**
 The token-bucket IRQ limiter (src/core/inc/irq_rate_limit.h).

 Fields keep their 32 and 64 bits: every wrap and truncation of the refill is written out. The clock is a parameter.
 */
module TokenBucket {
  import opened Arith

  const W32 := 0x1_0000_0000
  const W64 := 0x1_0000_0000_0000_0000

  type U32 = x: nat | x < W32
  type U64 = x: nat | x < W64
  type Pos = x: nat | x > 0 witness 1

  // max_tokens, rate, max_deferred and IRQ_RL_TIMER_FREQ.
  datatype Params = Params(max: U32, rate: U32, depth: U32, freq: Pos)

  // The default parameters of a criticality level; CRIT_HIGH is 1.
  function ParamsOf(criticality: nat): Params
  {
    if criticality >= 1 then Params(1000, 10_000, 32, 10_000_000) else Params(100, 1000, 8, 10_000_000)
  }

  // tokens, deferred_count, last_refill and dropped.
  datatype Bucket = Bucket(tokens: U32, deferred: U32, last: U64, dropped: U64)

  datatype Action = Allow | Deferred | Dropped

  function Min(a: nat, b: nat): nat
  {
    if a < b then a else b
  }

  function NewTokens(b: Bucket, p: Params, now: U64): nat
  {
    (((now - b.last) % W64) * p.rate) % W64 / p.freq
  }

  // The bucket after a refill.
  function Refilled(b: Bucket, p: Params, now: U64): Bucket
  {
    var n := NewTokens(b, p, now);
    if n == 0 then b else b.(tokens := Min((b.tokens + n % W32) % W32, p.max), last := now)
  }

  // A refill on plain numbers: where nothing overflows, whole tokens for the time gone by, up to the capacity.
  predicate RefillIs(b: Bucket, r: Bucket, p: Params, now: U64)
    requires b.last <= now
  {
    var n := (now - b.last) * p.rate / p.freq;
    (now - b.last) * p.rate < W64 && b.tokens + n < W32 && b.tokens <= p.max ==>
      && r.tokens == (if b.tokens + n < p.max then b.tokens + n else p.max)
      && r.last == (if n == 0 then b.last else now)
  }

  lemma NewIs(b: Bucket, p: Params, now: U64, x: nat)
    requires x < W64 && (now - b.last) % W64 == now - b.last && x == (now - b.last) * p.rate
    ensures NewTokens(b, p, now) == x / p.freq
  {
    SmallMod(x, W64);
  }

  lemma RefillPlain(b: Bucket, p: Params, now: U64)
    requires b.last <= now
    ensures RefillIs(b, Refilled(b, p, now), p, now)
  {
    var x := (now - b.last) * p.rate;
    assert x >= 0 && (now - b.last) % W64 == now - b.last;
    if x < W64 {
      SmallMod(x, W64);
      NewIs(b, p, now, x);
      hide NewTokens;
    }
  }

  // How many deferred interrupts the tokens at hand pay for.
  function Payable(b: Bucket): U32
  {
    Min(b.deferred, b.tokens)
  }

  function Paid(b: Bucket): Bucket
  {
    b.(tokens := b.tokens - Payable(b), deferred := b.deferred - Payable(b))
  }

  function Verdict(b: Bucket, p: Params): Action
  {
    if b.tokens > 0 then Allow else if b.deferred < p.depth then Deferred else Dropped
  }

  function Judged(b: Bucket, p: Params): Bucket
  {
    match Verdict(b, p)
    case Allow => b.(tokens := b.tokens - 1)
    case Deferred => b.(deferred := b.deferred + 1)
    case Dropped => b.(dropped := (b.dropped + 1) % W64)
  }

  // One call of irq_bucket_consume or irq_bucket_drain_deferred.
  datatype Op = Consume(at: U64) | Drain(at: U64)

  function Ready(b: Bucket, p: Params, op: Op): Bucket
  {
    Paid(Refilled(b, p, op.at))
  }

  function Done(b: Bucket, p: Params, op: Op): Bucket
  {
    if op.Consume? then Judged(Ready(b, p, op), p) else Ready(b, p, op)
  }

  // Tokens the call takes from the bucket.
  function Cost(b: Bucket, p: Params, op: Op): nat
  {
    Payable(Refilled(b, p, op.at)) + if op.Consume? && Verdict(Ready(b, p, op), p).Allow? then 1 else 0
  }

  class Limiter {
    const p: Params
    var tokens: U32
    var deferred: U32
    var last: U64
    var dropped: U64

    ghost function Value(): Bucket
      reads this
    {
      Bucket(tokens, deferred, last, dropped)
    }

    // irq_bucket_init.
    constructor (criticality: nat, now: U64)
      ensures p == ParamsOf(criticality) && Value() == Bucket(p.max, 0, now, 0)
      ensures p == if criticality == 0 then Params(100, 1000, 8, 10_000_000) else Params(1000, 10_000, 32, 10_000_000)
    {
      var q := ParamsOf(criticality);
      p := q;
      tokens, deferred, last, dropped := q.max, 0, now, 0;
    }

    method Refill(now: U64)
      modifies this
      ensures Value() == Refilled(old(Value()), p, now)
      ensures deferred == old(deferred) && dropped == old(dropped)
      ensures old(last) <= now ==> RefillIs(old(Value()), Value(), p, now)
    {
      hide RefillIs;
      if last <= now { RefillPlain(Value(), p, now); }
      var elapsed := (now - last) % W64;
      if elapsed == 0 { return; }
      var newTokens := (elapsed * p.rate) % W64 / p.freq;
      if newTokens > 0 {
        tokens := (tokens + newTokens % W32) % W32;
        if tokens > p.max {
          tokens := p.max;
        }
        last := now;
      }
    }

    method Consume(now: U64) returns (action: Action)
      modifies this
      ensures Value() == Done(old(Value()), p, Op.Consume(now))
      ensures action == Verdict(Ready(old(Value()), p, Op.Consume(now)), p)
      ensures action == Allow ==> deferred == 0 && dropped == old(dropped)
      ensures action == Deferred ==> tokens == 0 && 0 < deferred <= p.depth && dropped == old(dropped)
      ensures action == Dropped ==> tokens == 0 && deferred >= p.depth && dropped == (old(dropped) + 1) % W64
    {
      Refill(now);
      ghost var b := Value();
      while deferred > 0 && tokens > 0
        invariant tokens <= b.tokens && b.tokens - tokens == b.deferred - deferred
        invariant last == b.last && dropped == b.dropped
      {
        deferred := deferred - 1;
        tokens := tokens - 1;
      }
      assert Value() == Paid(b);
      if tokens > 0 {
        tokens := tokens - 1;
        return Allow;
      }
      if deferred < p.depth {
        deferred := deferred + 1;
        return Deferred;
      }
      dropped := (dropped + 1) % W64;
      return Dropped;
    }

    method DrainDeferred(now: U64) returns (drained: U32)
      modifies this
      ensures Value() == Done(old(Value()), p, Op.Drain(now))
      ensures drained == Cost(old(Value()), p, Op.Drain(now))
      ensures drained == old(deferred) - deferred && (deferred == 0 || tokens == 0) && dropped == old(dropped)
    {
      Refill(now);
      ghost var b := Value();
      drained := 0;
      while deferred > 0 && tokens > 0
        invariant tokens <= b.tokens && drained == b.tokens - tokens == b.deferred - deferred
        invariant last == b.last && dropped == b.dropped
      {
        deferred := deferred - 1;
        tokens := tokens - 1;
        drained := drained + 1;
      }
    }
  }

  // A critical VM has the larger budget in every respect.
  lemma CriticalHasMore(criticality: nat)
    requires criticality >= 1
    ensures var high, low := ParamsOf(criticality), ParamsOf(0);
            high.max > low.max && high.rate > low.rate && high.depth > low.depth && high.freq == low.freq
  {
  }

  // Deferred interrupts are paid for one token each, in every call, until none is left or the tokens are used up.
  lemma PaidOut(b: Bucket, p: Params, op: Op)
    ensures var r, d := Refilled(b, p, op.at), Done(b, p, op);
            && (op.Drain? ==> d.deferred == 0 || d.tokens == 0)
            && (op.Drain? ==> r.tokens - d.tokens == r.deferred - d.deferred == Cost(b, p, op))
            && (op.Consume? ==> Cost(b, p, op) == r.tokens - d.tokens)
            && (op.Consume? && r.tokens > r.deferred ==> d.deferred == 0 && d.tokens == r.tokens - r.deferred - 1)
            && (op.Consume? && r.tokens <= r.deferred ==> d.tokens == 0 && d.deferred + r.tokens - r.deferred <= 1)
  {
    hide Refilled;
  }

  // Whole tokens earned in d ticks.
  function Earned(p: Params, d: nat): (r: nat)
  {
    d * p.rate / p.freq
  }

  // ---------------------------------------------------------------- runs of calls on one bucket

  function After(b: Bucket, p: Params, ops: seq<Op>): Bucket
  {
    if ops == [] then b else Done(After(b, p, ops[..|ops| - 1]), p, ops[|ops| - 1])
  }

  function Spent(b: Bucket, p: Params, ops: seq<Op>): nat
  {
    if ops == [] then 0
    else Spent(b, p, ops[..|ops| - 1]) + Cost(After(b, p, ops[..|ops| - 1]), p, ops[|ops| - 1])
  }

  // The clock never runs backwards.
  predicate Ordered(start: U64, ops: seq<Op>)
  {
    && (forall i: nat | i < |ops| :: start <= ops[i].at)
    && forall i: nat, j: nat | i < j < |ops| :: ops[i].at <= ops[j].at
  }

  // ---------------------------------------------------------------- the window bound

  // A refill at time u would add nothing.
  predicate Slack(b: Bucket, p: Params, u: nat)
  {
    b.last <= u && ((u - b.last) * p.rate) % W64 < p.freq
  }

  // d ticks of refilling, begun just short of a token, give e tokens.
  predicate PaidFor(e: int, p: Params, d: nat)
  {
    e * p.freq <= p.rate * d + p.freq - 1
  }

  // What a window that began at `from` keeps once a call was made in it, `spent` tokens having been spent: either
  // nothing was refilled yet, or what was refilled is paid for by the time from `from` to the last refill.
  ghost predicate Core(b: Bucket, p: Params, from: nat, now: nat, spent: nat)
  {
    || (spent + b.tokens <= p.max && exists u: nat :: from <= u <= now && Slack(b, p, u))
    || (from <= b.last && PaidFor(spent + b.tokens - p.max, p, b.last - from))
  }

  ghost predicate Budget(b: Bucket, p: Params, from: nat, now: nat, spent: nat)
  {
    b.tokens <= p.max && b.last <= now && (spent == 0 || Core(b, p, from, now, spent))
  }

  // Elapsed time that wraps around in the multiplication only loses tokens.
  lemma CreditGrows(b: Bucket, p: Params, u: nat, now: U64)
    requires Slack(b, p, u) && u <= now
    ensures NewTokens(b, p, now) * p.freq <= p.freq - 1 + (now - u) * p.rate
  {
    var x, y := (u - b.last) * p.rate, (now - u) * p.rate;
    assert (now - b.last) * p.rate == x + y by { Distribute(p.rate, u - b.last, now - u); }
    SumMod(x, y, W64);
    DivLe((x + y) % W64, p.freq);
  }

  lemma NewLe(b: Bucket, p: Params, now: U64)
    requires b.last <= now
    ensures NewTokens(b, p, now) * p.freq <= (now - b.last) * p.rate
    ensures NewTokens(b, p, now) == 0 ==> Slack(b, p, now)
  {
    var x := (now - b.last) * p.rate;
    assert x >= 0 && (now - b.last) % W64 == now - b.last;
    ModLe(x, W64);
    DivLe(x % W64, p.freq);
  }

  lemma AddCredit(e: int, n: nat, e': int, p: Params, d: nat, g: nat)
    requires e' <= e + n && PaidFor(e, p, d) && n * p.freq <= g * p.rate
    ensures PaidFor(e', p, d + g)
  {
    MulLe(e', e + n, p.freq);
    Distribute(p.freq, e, n);
    Distribute(p.rate, d, g);
  }

  lemma FirstCredit(n: nat, e: int, p: Params, g: nat, d: nat)
    requires e <= n && n * p.freq <= p.freq - 1 + g * p.rate && g <= d
    ensures PaidFor(e, p, d)
  {
    MulLe(e, n, p.freq);
    MulLe(g, d, p.rate);
  }

  lemma RefillBudget(b: Bucket, p: Params, from: nat, t: nat, now: U64, spent: nat)
    requires Budget(b, p, from, t, spent) && from <= now && t <= now
    ensures var r := Refilled(b, p, now); r.tokens <= p.max && r.last <= now && Core(r, p, from, now, spent)
  {
    hide NewTokens, Slack, PaidFor;
    NewLe(b, p, now);
    var n, r := NewTokens(b, p, now), Refilled(b, p, now);
    if n > 0 {
      assert r.tokens <= b.tokens + n;
      if spent > 0 && from <= b.last && PaidFor(spent + b.tokens - p.max, p, b.last - from) {
        AddCredit(spent + b.tokens - p.max, n, spent + r.tokens - p.max, p, b.last - from, now - b.last);
      } else if spent > 0 {
        var u: nat :| from <= u <= t && Slack(b, p, u);
        CreditGrows(b, p, u, now);
        FirstCredit(n, spent + r.tokens - p.max, p, now - u, now - from);
      } else {
        FirstCredit(0, r.tokens - p.max, p, 0, now - from);
      }
    }
  }

  lemma StepBudget(b: Bucket, p: Params, from: nat, t: nat, op: Op, spent: nat)
    requires Budget(b, p, from, t, spent) && from <= op.at && t <= op.at
    ensures Budget(Done(b, p, op), p, from, op.at, spent + Cost(b, p, op))
  {
    hide NewTokens, Refilled;
    RefillBudget(b, p, from, t, op.at, spent);
    var r, d := Refilled(b, p, op.at), Done(b, p, op);
    assert d.last == r.last && d.tokens + Cost(b, p, op) == r.tokens;
    forall u: nat | Slack(r, p, u) ensures Slack(d, p, u) {}
  }

  lemma BoundFromCredit(e: int, k: nat, p: Params, d: nat, w: nat)
    requires k <= e && PaidFor(e, p, d) && d <= w
    ensures k <= Earned(p, w) + 1
  {
    MulLe(k, e, p.freq);
    MulLe(d, w, p.rate);
    assert p.rate * w >= 0;
    AtMostCeil(k, w * p.rate, p.freq);
  }

  // What a window keeps bounds what was spent in it.
  lemma BudgetBound(b: Bucket, p: Params, from: nat, now: nat, to: nat, spent: nat)
    requires Budget(b, p, from, now, spent) && from <= to && now <= to
    ensures spent <= p.max + Earned(p, to - from) + 1
  {
    hide Slack, PaidFor, Earned;
    if spent > p.max {
      BoundFromCredit(spent + b.tokens - p.max, spent - p.max, p, b.last - from, to - from);
    }
  }

  lemma {:induction false} WindowBudget(b: Bucket, p: Params, ops: seq<Op>, from: nat)
    requires b.tokens <= p.max && Ordered(b.last, ops) && (ops != [] ==> from <= ops[0].at)
    ensures Budget(After(b, p, ops), p, from, if ops == [] then b.last else ops[|ops| - 1].at, Spent(b, p, ops))
  {
    if ops != [] {
      var n := |ops| - 1;
      WindowBudget(b, p, ops[..n], from);
      var last := if n == 0 then b.last else ops[n - 1].at;
      StepBudget(After(b, p, ops[..n]), p, from, last, ops[n], Spent(b, p, ops[..n]));
    }
  }

  lemma AfterPrefix(b: Bucket, p: Params, ops: seq<Op>)
    requires b.tokens <= p.max && Ordered(b.last, ops)
    ensures After(b, p, ops).tokens <= p.max
    ensures After(b, p, ops).last <= if ops == [] then b.last else ops[|ops| - 1].at
  {
    WindowBudget(b, p, ops, 0);
  }

  // In any window [from, to] of any run at most max_tokens + rate * (to - from) / freq + 1 tokens are spent, whatever
  // wraps around or is truncated in the refills.
  lemma WindowBound(b: Bucket, p: Params, ops: seq<Op>, i: nat, j: nat, from: nat, to: nat)
    requires b.tokens <= p.max && Ordered(b.last, ops) && i <= j <= |ops| && from <= to
    requires forall k: nat | i <= k < j :: from <= ops[k].at <= to
    ensures Spent(After(b, p, ops[..i]), p, ops[i..j]) <= p.max + Earned(p, to - from) + 1
  {
    hide After, Budget, Earned;
    AfterPrefix(b, p, ops[..i]);
    if i == j {
      assert ops[i..j] == [];
    } else {
      var w, c := ops[i..j], After(b, p, ops[..i]);
      WindowBudget(c, p, w, from);
      BudgetBound(After(c, p, w), p, from, ops[j - 1].at, to, Spent(c, p, w));
    }
  }

  // ---------------------------------------------------------------- a conforming stream is never throttled

  // No product, truncation or sum of this call's refill overflows.
  predicate Fits(b: Bucket, p: Params, op: Op)
  {
    b.last <= op.at && (op.at - b.last) * p.rate < W64 && b.tokens + Earned(p, op.at - b.last) < W32
  }

  // Ticks in which the bucket earns a token: freq / rate, rounded up.
  function Gap(p: Params): nat
    requires p.rate > 0
  {
    (p.freq + p.rate - 1) / p.rate
  }

  // Any two consume calls are at least Gap apart; drain calls may come at any time.
  predicate Conforming(p: Params, ops: seq<Op>)
    requires p.rate > 0
  {
    forall i: nat, j: nat | i < j < |ops| && ops[i].Consume? && ops[j].Consume? :: ops[j].at - ops[i].at >= Gap(p)
  }

  lemma GapEarns(p: Params, d: nat)
    requires p.rate > 0 && d >= Gap(p)
    ensures Earned(p, d) >= 1
  {
    DivLe(p.freq + p.rate - 1, p.rate);
    MulLe(Gap(p), d, p.rate);
    DivLe(d * p.rate, p.freq);
    MulLt(0, d * p.rate / p.freq, p.freq);
  }

  lemma FitsExact(b: Bucket, p: Params, op: Op)
    requires Fits(b, p, op)
    ensures b.last <= op.at && NewTokens(b, p, op.at) == Earned(p, op.at - b.last)
  {
    var d := op.at - b.last;
    MulLe(0, d, p.rate);
    SmallMod(d, W64);
    SmallMod(d * p.rate, W64);
  }

  // A refill that does not overflow adds what was earned, up to the maximum.
  lemma ExactRefill(b: Bucket, p: Params, op: Op)
    requires Fits(b, p, op)
    ensures b.last <= op.at && b.tokens + Earned(p, op.at - b.last) < W32
    ensures var n := Earned(p, op.at - b.last);
            Refilled(b, p, op.at) == if n == 0 then b else b.(tokens := Min(b.tokens + n, p.max), last := op.at)
  {
    hide NewTokens, Earned;
    FitsExact(b, p, op);
    SmallMod(NewTokens(b, p, op.at), W32);
  }

  // Nothing is deferred, and a token is there unless the last refill was no later than some earlier consume call.
  ghost predicate Supplied(b: Bucket, ops: seq<Op>)
  {
    && b.deferred == 0
    && (b.tokens > 0 || exists i: nat :: i < |ops| && ops[i].Consume? && b.last <= ops[i].at)
  }

  lemma StepSupplied(b: Bucket, p: Params, ops: seq<Op>)
    requires ops != [] && Supplied(b, ops[..|ops| - 1]) && Fits(b, p, ops[|ops| - 1])
    requires p.rate > 0 && p.max > 0 && Conforming(p, ops)
    ensures var op := ops[|ops| - 1];
            Supplied(Done(b, p, op), ops) && (op.Consume? ==> Verdict(Ready(b, p, op), p).Allow?)
  {
    hide Refilled, Gap, Fits, Earned;
    var n := |ops| - 1;
    var op := ops[n];
    ExactRefill(b, p, op);
    if b.tokens == 0 {
      var i: nat :| i < n && ops[..n][i].Consume? && b.last <= ops[..n][i].at;
      assert ops[i] == ops[..n][i];
      if op.Consume? { GapEarns(p, op.at - b.last); }
    }
  }

  // If consume calls come at least Gap apart, on a bucket that starts with a token and nothing deferred, and no refill
  // overflows, every one of them is allowed and nothing is ever deferred.
  lemma {:induction false} NeverThrottled(b: Bucket, p: Params, ops: seq<Op>)
    requires b.tokens > 0 && b.deferred == 0 && p.rate > 0 && p.max > 0 && Conforming(p, ops)
    requires forall k: nat | k < |ops| :: Fits(After(b, p, ops[..k]), p, ops[k])
    ensures Supplied(After(b, p, ops), ops)
    ensures forall k: nat | k < |ops| && ops[k].Consume? :: Verdict(Ready(After(b, p, ops[..k]), p, ops[k]), p).Allow?
  {
    hide Fits, Ready, Verdict, Done, Gap;
    if ops != [] {
      hide Supplied;
      var n := |ops| - 1;
      assert forall k: nat | k < n :: ops[..n][..k] == ops[..k];
      NeverThrottled(b, p, ops[..n]);
      StepSupplied(After(b, p, ops[..n]), p, ops);
    }
  }

  // Without that hypothesis it fails: a long enough silence wraps a full bucket around to no tokens at all, and the
  // first call after it is deferred.
  lemma SilenceThrottles(b: Bucket, p: Params, op: Op)
    requires p == Params(1000, 10_000, 32, 10_000_000) && b == Bucket(p.max, 0, 0, 0)
    requires op == Consume((W32 - 1000) * 1000)
    ensures Conforming(p, [op]) && Ordered(b.last, [op])
    ensures Verdict(Ready(b, p, op), p) == Deferred && Done(b, p, op).deferred == 1
  {
    hide Gap, NewTokens;
    assert NewTokens(b, p, op.at) == W32 - 1000 by { WrapExample(b, p, op.at); }
  }

  lemma WrapExample(b: Bucket, p: Params, now: U64)
    requires b.last == 0 && p.rate == 10_000 && p.freq == 10_000_000 && now == (W32 - 1000) * 1000
    ensures NewTokens(b, p, now) == W32 - 1000
  {
  }

  // With nothing deferred, a call is allowed exactly when the refill leaves a token: it had one or earned one, and
  // the 32-bit sum of the two did not come out as zero.
  lemma AllowIff(b: Bucket, p: Params, now: U64)
    requires b.deferred == 0 && p.max > 0
    ensures var n := NewTokens(b, p, now);
            Verdict(Ready(b, p, Consume(now)), p).Allow? <==>
              if n == 0 then b.tokens > 0 else b.tokens + n % W32 != W32 && (b.tokens > 0 || n % W32 > 0)
  {
  }

  // ---------------------------------------------------------------- every call is accounted for

  function Calls(ops: seq<Op>): nat
  {
    if ops == [] then 0 else Calls(ops[..|ops| - 1]) + if ops[|ops| - 1].Consume? then 1 else 0
  }

  lemma StepAccounted(b: Bucket, p: Params, op: Op)
    requires b.deferred <= p.depth
    ensures var d, offered := Done(b, p, op), b.deferred + if op.Consume? then 1 else 0;
            && d.deferred <= p.depth
            && 0 <= offered - Cost(b, p, op) - d.deferred <= 1
            && d.dropped == (b.dropped + offered - Cost(b, p, op) - d.deferred) % W64
  {
    hide NewTokens;
  }

  // From a fresh bucket: every interrupt offered has cost a token, is deferred, or was counted as dropped.
  lemma {:induction false} Accounted(b: Bucket, p: Params, ops: seq<Op>)
    requires b.deferred == 0 && b.dropped == 0
    ensures After(b, p, ops).deferred <= p.depth
    ensures Spent(b, p, ops) + After(b, p, ops).deferred <= Calls(ops)
    ensures After(b, p, ops).dropped == (Calls(ops) - Spent(b, p, ops) - After(b, p, ops).deferred) % W64
  {
    hide Done, Cost;
    if ops != [] {
      var n := |ops| - 1;
      Accounted(b, p, ops[..n]);
      StepAccounted(After(b, p, ops[..n]), p, ops[n]);
    }
  }
}
