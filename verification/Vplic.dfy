/**
 Pending interrupts of the virtual PLIC and their rate limiting (src/arch/riscv/vplic.c): next pending, inject, claim
 and complete; claim and complete as in chapter 8 of the RISC-V PLIC Specification.

 Bitmaps are sets of interrupt ids. Each method is one section under the VM's PLIC lock; what the hart line and the
 physical PLIC are told afterwards is not modelled. The guards of the code let ids past the end of an array through,
 where the next field of the structure lies: pend is followed by act, deferred, the priorities, and the enable bits of
 the contexts. The reads this makes in NextPending, and the write in Complete up to the end of deferred, are modelled.
 */
module Vplic {
  import opened TokenBucket

  const PLIC_MAX_INTERRUPTS: nat := 1024

  datatype State = State(pend: set<nat>, act: set<nat>, deferred: set<nat>, buckets: seq<Bucket>)

  // Events of the virtual PLIC. A claim names the id it hands out and the clock as read for each bucket in turn.
  datatype Event = Inject(id: nat, at: U64) | Claim(id: nat, clock: nat -> U64) | Complete(id: nat)

  ghost predicate WellFormed(v: State)
  {
    && |v.buckets| == PLIC_MAX_INTERRUPTS
    && (forall i: nat | i in v.pend :: 0 < i < PLIC_MAX_INTERRUPTS)
    && forall i: nat | i in v.deferred :: 0 < i < PLIC_MAX_INTERRUPTS
  }

  // The event is one that the code accepts in state v; 0 is claimed when nothing is claimable.
  ghost predicate Enabled(v: State, e: Event)
  {
    match e
    case Inject(id, _) => id != PLIC_MAX_INTERRUPTS
    case Claim(id, _) => id != 0 ==> id in v.pend && id !in v.act
    case Complete(id) => id < 2 * PLIC_MAX_INTERRUPTS
  }

  // ---------------------------------------------------------------- what each event does

  // Injecting asks the bucket.
  predicate Asks(v: State, id: nat)
  {
    0 < id < |v.buckets| && id !in v.pend
  }

  function Injected(v: State, p: Params, id: nat, at: U64): State
  {
    if !Asks(v, id) then v
    else
      var op := Op.Consume(at);
      var b := v.buckets[id];
      var w := v.(buckets := v.buckets[id := Done(b, p, op)]);
      match Verdict(Ready(b, p, op), p)
      case Allow => w.(pend := w.pend + {id})
      case Deferred => w.(deferred := w.deferred + {id})
      case Dropped => w
  }

  // The deferred interrupts below `top` that a claim finds tokens for.
  function Due(v: State, p: Params, clock: nat -> U64, top: nat): set<nat>
    requires top <= |v.buckets|
  {
    set k: nat | k in v.deferred && 0 < k < top && Cost(v.buckets[k], p, Op.Drain(clock(k))) > 0
  }

  lemma NoneDue(v: State, p: Params, clock: nat -> U64)
    requires |v.buckets| > 0
    ensures Due(v, p, clock, 1) == {}
  {
  }

  lemma DueNext(v: State, p: Params, clock: nat -> U64, i: nat)
    requires 0 < i < |v.buckets|
    ensures var d := Due(v, p, clock, i);
            && i !in d && d <= v.deferred
            && Due(v, p, clock, i + 1) ==
               d + if i in v.deferred && Cost(v.buckets[i], p, Op.Drain(clock(i))) > 0 then {i} else {}
  {
  }

  lemma DueIds(v: State, p: Params, clock: nat -> U64, top: nat)
    requires top <= |v.buckets|
    ensures Due(v, p, clock, top) <= v.deferred
  {
  }

  function Drained(v: State, p: Params, clock: nat -> U64): seq<Bucket>
  {
    seq(|v.buckets|, k requires 0 <= k < |v.buckets| =>
      if k in v.deferred && k > 0 then Done(v.buckets[k], p, Op.Drain(clock(k))) else v.buckets[k])
  }

  lemma DueSame(v: State, w: State, p: Params, clock: nat -> U64)
    requires w.deferred == v.deferred && w.buckets == v.buckets
    ensures Due(w, p, clock, |v.buckets|) == Due(v, p, clock, |v.buckets|)
        && Drained(w, p, clock) == Drained(v, p, clock)
    ensures WellFormed(v) && w.pend <= v.pend ==> WellFormed(w)
  {
  }

  function Claimed(v: State, p: Params, id: nat, clock: nat -> U64): State
  {
    var due := Due(v, p, clock, |v.buckets|);
    State(v.pend - {id} + due, v.act + {id}, v.deferred - due, Drained(v, p, clock))
  }

  function Next(v: State, p: Params, e: Event): State
  {
    match e
    case Inject(id, at) => Injected(v, p, id, at)
    case Claim(id, clock) => Claimed(v, p, id, clock)
    case Complete(id) =>
      if id < PLIC_MAX_INTERRUPTS then v.(act := v.act - {id})
      else v.(deferred := v.deferred - {id - PLIC_MAX_INTERRUPTS})
  }

  // Bits k to 31 of the first word of a bitmap, as a number.
  function Word(s: set<nat>, k: nat): nat
    decreases 32 - k
  {
    if k >= 32 then 0 else (if k in s then 1 else 0) + 2 * Word(s, k + 1)
  }

  lemma {:induction false} EmptyWord(k: nat)
    ensures Word({}, k) == 0
    decreases 32 - k
  {
    if k < 32 { EmptyWord(k + 1); }
  }

  class Vplic {
    const p: Params
    const buckets: seq<Limiter>
    var pend: set<nat>
    var act: set<nat>
    var deferred: set<nat>
    var prio: seq<U32>
    var enbl: seq<set<nat>>
    var threshold: seq<U32>

    // Context 0 is of machine mode, whose registers a guest cannot write (vplic_vcntxt_valid): it enables nothing.
    ghost predicate Valid()
      reads this, buckets
    {
      && |buckets| == |prio| == PLIC_MAX_INTERRUPTS && |enbl| == |threshold| && WellFormed(Value())
      && (enbl != [] ==> enbl[0] == {})
      && (forall i: nat | i < |buckets| :: buckets[i].p == p)
      && forall i: nat, j: nat | i < j < |buckets| :: buckets[i] != buckets[j]
    }

    ghost function Value(): State
      reads this, buckets
    {
      State(pend, act, deferred,
            seq(|buckets|, i requires 0 <= i < |buckets| reads buckets => buckets[i].Value()))
    }

    // vplic_init on a zeroed VM, with `ctxs` contexts.
    constructor (criticality: nat, clock: nat -> U64, ctxs: nat)
      ensures Valid() && fresh(buckets) && |enbl| == ctxs && p == ParamsOf(criticality)
      ensures Value() == State({}, {}, {}, seq(PLIC_MAX_INTERRUPTS, (i: nat) => Bucket(p.max, 0, clock(i), 0)))
    {
      var bs: seq<Limiter> := [];
      for i: nat := 0 to PLIC_MAX_INTERRUPTS
        invariant |bs| == i && fresh(bs)
        invariant forall k: nat | k < i ::
                    bs[k].p == ParamsOf(criticality) && bs[k].Value() == Bucket(bs[k].p.max, 0, clock(k), 0)
        invariant forall j: nat, k: nat | j < k < i :: bs[j] != bs[k]
      {
        var b := new Limiter(criticality, clock(i));
        bs := bs + [b];
      }
      p := ParamsOf(criticality);
      buckets := bs;
      pend, act, deferred := {}, {}, {};
      prio := seq(PLIC_MAX_INTERRUPTS, _ => 0);
      enbl, threshold := seq(ctxs, _ => {}), seq(ctxs, _ => 0);
    }

    ghost predicate Candidate(ctx: nat, i: nat)
      requires ctx < |enbl|
      reads this
    {
      i in pend && i !in act && i in enbl[ctx]
    }

    // id is the pending, enabled and inactive interrupt of highest priority, the least id first, and its priority is
    // above the threshold; or it is 0 and there is none above the threshold.
    ghost predicate Best(ctx: nat, id: nat)
      requires ctx < |enbl| == |threshold|
      reads this
    {
      && (id == 0 ==> forall j: nat | Candidate(ctx, j) :: j < |prio| && prio[j] <= threshold[ctx])
      && (id != 0 ==>
           && Candidate(ctx, id) && id < |prio| && prio[id] > threshold[ctx]
           && forall j: nat | Candidate(ctx, j) :: j < |prio| && prio[j] <= prio[id] && (j < id ==> prio[j] < prio[id]))
    }

    lemma BestIsPending(ctx: nat, id: nat)
      requires Valid() && ctx < |enbl| && Best(ctx, id) && id != 0
      ensures id in pend && id !in act
    {
    }

    // The reads of vplic_get_pend, vplic_get_act, vplic_get_enbl and vplic_get_prio, of ids up to PLIC_MAX_INTERRUPTS.
    predicate GetPend(id: nat)
      reads this
    {
      if id < PLIC_MAX_INTERRUPTS then id in pend else 0 in act
    }

    predicate GetAct(id: nat)
      reads this
    {
      if id < PLIC_MAX_INTERRUPTS then id in act else 0 in deferred
    }

    predicate GetEnbl(ctx: nat, id: nat)
      requires ctx < |enbl| == |threshold|
      reads this
    {
      if id < PLIC_MAX_INTERRUPTS then id in enbl[ctx]
      else if ctx + 1 < |enbl| then 0 in enbl[ctx + 1] else threshold[0] % 2 == 1
    }

    function GetPrio(id: nat): nat
      requires |enbl| > 0 && |prio| == PLIC_MAX_INTERRUPTS
      reads this
    {
      if id < PLIC_MAX_INTERRUPTS then prio[id] else Word(enbl[0], 0)
    }

    // vplic_next_pending. The id one past the last can pass the tests, but its priority is the first word of context
    // 0, 0.
    method NextPending(ctx: nat) returns (id: nat)
      requires Valid() && ctx < |enbl|
      ensures Best(ctx, id)
    {
      EmptyWord(0);
      var maxPrio := 0;
      id := 0;
      for i: nat := 0 to PLIC_MAX_INTERRUPTS + 1
        invariant (id == 0) == (maxPrio == 0) && id < |prio|
        invariant id != 0 ==> id < i && Candidate(ctx, id) && prio[id] == maxPrio
        invariant forall j: nat | j < i && Candidate(ctx, j) :: j < |prio| && prio[j] <= maxPrio
        invariant forall j: nat | j < id && Candidate(ctx, j) :: j < |prio| && prio[j] < maxPrio
      {
        assert Candidate(ctx, i) ==> i in Value().pend;
        if GetPend(i) && !GetAct(i) && GetEnbl(ctx, i) {
          var q := GetPrio(i);
          if q > maxPrio {
            maxPrio := q;
            id := i;
          }
        }
      }
      assert forall j: nat | Candidate(ctx, j) :: j in Value().pend;
      if maxPrio <= threshold[ctx] {
        id := 0;
      }
    }

    method Inject(id: nat, now: U64)
      requires Valid() && Enabled(Value(), Event.Inject(id, now))
      modifies this`pend, this`deferred, buckets
      ensures Valid() && Value() == Next(old(Value()), p, Event.Inject(id, now))
    {
      if id > 0 && id <= PLIC_MAX_INTERRUPTS && id !in pend {
        var action := buckets[id].Consume(now);
        assert Value().buckets == old(Value()).buckets[id := buckets[id].Value()];
        if action == Dropped {
          return;
        }
        if action == Deferred {
          deferred := deferred + {id};
          return;
        }
        pend := pend + {id};
      }
    }

    method Complete(id: nat)
      requires Valid() && Enabled(Value(), Event.Complete(id))
      modifies this`act, this`deferred
      ensures Valid() && Value() == Next(old(Value()), p, Event.Complete(id))
    {
      if id < PLIC_MAX_INTERRUPTS {
        act := act - {id};
      } else {
        deferred := deferred - {id - PLIC_MAX_INTERRUPTS};
      }
    }

    method Claim(ctx: nat, clock: nat -> U64) returns (id: nat)
      requires Valid() && ctx < |enbl|
      modifies this`pend, this`act, this`deferred, buckets
      ensures Valid() && old(Enabled(Value(), Event.Claim(id, clock)))
      ensures Value() == Next(old(Value()), p, Event.Claim(id, clock))
      ensures old(Best(ctx, id))
    {
      hide Due, Drained, WellFormed, Best;
      id := NextPending(ctx);
      if id != 0 { BestIsPending(ctx, id); }
      ghost var v := Value();
      pend := pend - {id};
      act := act + {id};
      ghost var w := Value();
      assert w == State(v.pend - {id}, v.act + {id}, v.deferred, v.buckets);
      DueSame(v, w, p, clock);
      DrainDue(clock);
    }

    // The loop of vplic_claim over the deferred interrupts.
    method DrainDue(clock: nat -> U64)
      requires Valid()
      modifies this`pend, this`deferred, buckets
      ensures Valid()
      ensures var v := old(Value());
              var due := Due(v, p, clock, PLIC_MAX_INTERRUPTS);
              Value() == State(v.pend + due, v.act, v.deferred - due, Drained(v, p, clock))
    {
      hide Due, Done, Cost;
      ghost var v := Value();
      NoneDue(v, p, clock);
      for i: nat := 1 to PLIC_MAX_INTERRUPTS
        invariant pend == v.pend + Due(v, p, clock, i) && deferred == v.deferred - Due(v, p, clock, i)
        invariant forall k: nat | k < PLIC_MAX_INTERRUPTS ::
                    buckets[k].Value() ==
                    if k in v.deferred && 0 < k < i then Done(v.buckets[k], p, Op.Drain(clock(k))) else v.buckets[k]
      {
        DueNext(v, p, clock, i);
        if i in deferred {
          var drained := buckets[i].DrainDeferred(clock(i));
          if drained > 0 {
            deferred := deferred - {i};
            if i !in pend {
              pend := pend + {i};
            }
          }
        }
      }
      DueIds(v, p, clock, PLIC_MAX_INTERRUPTS);
      assert Value().buckets == Drained(v, p, clock);
    }
  }

  // ---------------------------------------------------------------- runs of events, and one interrupt in them

  function Final(v: State, p: Params, es: seq<Event>): (w: State)
    ensures |w.buckets| == |v.buckets|
  {
    if |es| == 0 then v else Next(Final(v, p, es[..|es| - 1]), p, es[|es| - 1])
  }

  // The call, if any, that the event makes on the bucket of interrupt id.
  function CallOn(v: State, e: Event, id: nat): seq<Op>
    requires 0 < id < |v.buckets|
  {
    match e
    case Inject(j, at) => if j == id && id !in v.pend then [Op.Consume(at)] else []
    case Claim(_, clock) => if id in v.deferred then [Op.Drain(clock(id))] else []
    case Complete(_) => []
  }

  function Trace(v: State, p: Params, es: seq<Event>, id: nat): seq<Op>
    requires 0 < id < |v.buckets|
  {
    if |es| == 0 then []
    else Trace(v, p, es[..|es| - 1], id) + CallOn(Final(v, p, es[..|es| - 1]), es[|es| - 1], id)
  }

  // The event makes interrupt id pending.
  predicate Raises(v: State, p: Params, e: Event, id: nat)
  {
    id in Next(v, p, e).pend && (id !in v.pend || (e.Claim? && e.id == id))
  }

  function Raised(v: State, p: Params, es: seq<Event>, id: nat): nat
  {
    if |es| == 0 then 0
    else Raised(v, p, es[..|es| - 1], id) + if Raises(Final(v, p, es[..|es| - 1]), p, es[|es| - 1], id) then 1 else 0
  }

  lemma NextOne(v: State, p: Params, e: Event, id: nat)
    requires WellFormed(v) && Enabled(v, e) && 0 < id < |v.buckets|
    ensures var w, b, c := Next(v, p, e), v.buckets[id], CallOn(v, e, id);
            && WellFormed(w) && |c| <= 1
            && w.buckets[id] == (if c == [] then b else Done(b, p, c[0]))
            && (Raises(v, p, e, id) ==> c != [] && Cost(b, p, c[0]) >= 1)
            && (id in w.pend) == (Raises(v, p, e, id) || (id in v.pend && !(e.Claim? && e.id == id)))
  {
    hide Done, Verdict, Payable;
  }

  ghost predicate Legal(v: State, p: Params, es: seq<Event>)
  {
    WellFormed(v) && forall k: nat | k < |es| :: Enabled(Final(v, p, es[..k]), es[k])
  }

  // What a run does to one bucket is a run of calls on that bucket, and each time it makes the interrupt pending it
  // spends a token there.
  lemma {:induction false} TraceRefines(v: State, p: Params, es: seq<Event>, id: nat)
    requires Legal(v, p, es) && 0 < id < |v.buckets|
    ensures var w, b, c := Final(v, p, es), v.buckets[id], Trace(v, p, es, id);
            WellFormed(w) && w.buckets[id] == After(b, p, c) && Raised(v, p, es, id) <= Spent(b, p, c)
  {
    hide Next, Enabled, Raises, CallOn, Done, Cost, WellFormed;
    if |es| > 0 {
      hide After, Spent;
      var n := |es| - 1;
      assert forall k: nat | k < n :: es[..n][..k] == es[..k];
      TraceRefines(v, p, es[..n], id);
      var w, d := Final(v, p, es[..n]), Trace(v, p, es[..n], id);
      NextOne(w, p, es[n], id);
      AppendCall(v.buckets[id], p, d, CallOn(w, es[n], id));
    }
  }

  // ---------------------------------------------------------------- tokens spent without raising

  // The clock as event e reads it for interrupt id.
  function Time(e: Event, id: nat): U64
    requires !e.Complete?
  {
    if e.Inject? then e.at else e.clock(id)
  }

  // The event spends on interrupt id what it raises: a consume finds nothing to pay for, a drain pays for nothing, or
  // for one deferred interrupt that was not pending already.
  predicate Even(v: State, p: Params, e: Event, id: nat)
    requires 0 < id < |v.buckets|
  {
    CallOn(v, e, id) != [] ==>
      var n := Payable(Refilled(v.buckets[id], p, Time(e, id)));
      n == 0 || (e.Claim? && n == 1 && (id !in v.pend || e.id == id))
  }

  lemma EvenStep(v: State, p: Params, e: Event, id: nat)
    requires WellFormed(v) && Enabled(v, e) && 0 < id < |v.buckets|
    ensures var c, r := CallOn(v, e, id), (if Raises(v, p, e, id) then 1 else 0);
            var cost := if c == [] then 0 else Cost(v.buckets[id], p, c[0]);
            cost >= r && (cost == r <==> Even(v, p, e, id))
  {
    hide Done, Verdict, Refilled;
    NextOne(v, p, e, id);
  }

  ghost predicate AllEven(v: State, p: Params, es: seq<Event>, id: nat)
    requires 0 < id < |v.buckets|
  {
    forall k: nat | k < |es| :: Even(Final(v, p, es[..k]), p, es[k], id)
  }

  lemma AllEvenLast(v: State, p: Params, es: seq<Event>, id: nat)
    requires 0 < id < |v.buckets| && |es| > 0
    ensures var n := |es| - 1;
            AllEven(v, p, es, id) <==> AllEven(v, p, es[..n], id) && Even(Final(v, p, es[..n]), p, es[n], id)
  {
    hide Final, Even;
    var n := |es| - 1;
    assert forall k: nat | k < n :: es[..n][..k] == es[..k] && es[..n][k] == es[k];
  }

  lemma LegalLast(v: State, p: Params, es: seq<Event>)
    requires Legal(v, p, es) && |es| > 0
    ensures Legal(v, p, es[..|es| - 1]) && Enabled(Final(v, p, es[..|es| - 1]), es[|es| - 1])
  {
    hide Final, Enabled, WellFormed;
    assert forall k: nat | k < |es| - 1 :: es[..|es| - 1][..k] == es[..k];
  }

  // A run spends tokens without raising exactly when one of its events does.
  lemma {:induction false} SpentIsRaised(v: State, p: Params, es: seq<Event>, id: nat)
    requires Legal(v, p, es) && 0 < id < |v.buckets|
    ensures Spent(v.buckets[id], p, Trace(v, p, es, id)) == Raised(v, p, es, id) <==> AllEven(v, p, es, id)
  {
    hide Next, Enabled, Raises, CallOn, Done, Cost, WellFormed, Even, Legal;
    if |es| > 0 {
      hide After, Spent, AllEven, Final;
      var n := |es| - 1;
      LegalLast(v, p, es);
      AllEvenLast(v, p, es, id);
      SpentIsRaised(v, p, es[..n], id);
      TraceRefines(v, p, es[..n], id);
      var w, d := Final(v, p, es[..n]), Trace(v, p, es[..n], id);
      EvenStep(w, p, es[n], id);
      CallTime(w, es[n], id);
      AppendCall(v.buckets[id], p, d, CallOn(w, es[n], id));
    }
  }

  // A run and what interrupt id raised and spent in it.
  ghost predicate Account(v: State, p: Params, es: seq<Event>, id: nat, w: State, raised: nat, spent: nat)
    requires 0 < id < |v.buckets|
  {
    && Legal(v, p, es) && Final(v, p, es) == w
    && Raised(v, p, es, id) == raised && Spent(v.buckets[id], p, Trace(v, p, es, id)) == spent
  }

  lemma AccountNext(v: State, p: Params, es: seq<Event>, e: Event, id: nat, w: State, raised: nat, spent: nat)
    requires 0 < id < |v.buckets| && Account(v, p, es, id, w, raised, spent) && Enabled(w, e)
    ensures var c := CallOn(w, e, id);
            && |w.buckets| == |v.buckets| && |c| <= 1
            && Account(v, p, es + [e], id, Next(w, p, e), raised + (if Raises(w, p, e, id) then 1 else 0),
                       spent + if c == [] then 0 else Cost(w.buckets[id], p, c[0]))
  {
    hide Next, Enabled, Raises, CallOn, Done, Cost, After, Spent;
    var es' := es + [e];
    assert es'[..|es|] == es;
    assert forall k: nat | k < |es| :: es'[..k] == es[..k];
    TraceRefines(v, p, es, id);
    CallTime(w, e, id);
    AppendCall(v.buckets[id], p, Trace(v, p, es, id), CallOn(w, e, id));
  }

  // One event of the run below: what it does, raises and spends.
  lemma InjectOnce(v: State, p: Params, e: Event)
    requires e.Inject? && e.id == 1 && 1 < |v.buckets| && 1 !in v.pend
    ensures var b, c := v.buckets[1], CallOn(v, e, 1);
            var r := Ready(b, p, Op.Consume(e.at));
            && c == [Op.Consume(e.at)] && Cost(b, p, c[0]) == Cost(b, p, Op.Consume(e.at))
            && (Raises(v, p, e, 1) <==> Verdict(r, p).Allow?)
            && Next(v, p, e) == State(if Verdict(r, p).Allow? then v.pend + {1} else v.pend, v.act,
                                      if Verdict(r, p).Deferred? then v.deferred + {1} else v.deferred,
                                      v.buckets[1 := Done(b, p, Op.Consume(e.at))])
  {
    hide Done, Cost, Verdict;
  }

  lemma ClaimOnce(v: State, p: Params, e: Event)
    requires e.Claim? && 1 < |v.buckets| && v.deferred == {}
    ensures CallOn(v, e, 1) == [] && (Raises(v, p, e, 1) <==> false)
    ensures Next(v, p, e) == State(v.pend - {e.id}, v.act + {e.id}, {}, v.buckets)
  {
    hide Done, Cost;
    assert Drained(v, p, e.clock) == v.buckets;
    assert Due(v, p, e.clock, |v.buckets|) == {};
  }

  // A consume on a bucket of one token that is refilled in each tick.
  lemma ConsumeOnce(b: Bucket, p: Params, op: Op)
    requires p.max == 1 && p.rate == 1 && p.freq == 1 && p.depth > 1 && op.Consume?
    requires b.last == 0 && b.tokens <= 1 && b.deferred <= 1 && op.at <= 2
    ensures var t := if b.tokens + op.at > 0 then 1 else 0;
            var left := t - Min(b.deferred, t);
            && Verdict(Ready(b, p, op), p) == (if left > 0 then Allow else Deferred)
            && Cost(b, p, op) == t
            && Done(b, p, op).tokens == 0 && Done(b, p, op).last == op.at
            && Done(b, p, op).deferred == b.deferred - Min(b.deferred, t) + (if left > 0 then 0 else 1)
  {
    hide NewTokens;
    NewAt(b, p, op.at);
  }

  lemma NewAt(b: Bucket, p: Params, at: U64)
    requires b.last == 0 && p.rate == 1 && p.freq == 1
    ensures NewTokens(b, p, at) == at
  {
    assert at % W64 == at;
  }

  // An interrupt injected and claimed, then deferred, and then injected again: two tokens spent, raised once.
  lemma SpentUnraised(p: Params, v: State) returns (es: seq<Event>)
    requires p == Params(1, 1, 8, 1) && v.buckets == seq(PLIC_MAX_INTERRUPTS, _ => Bucket(1, 0, 0, 0))
    requires v.pend == v.act == v.deferred == {}
    ensures Legal(v, p, es) && Raised(v, p, es, 1) == 1 && Spent(v.buckets[1], p, Trace(v, p, es, 1)) == 2
  {
    hide Legal, Final, Raised, Spent, Trace, Done, Cost, Ready, Verdict, Next, Raises, CallOn;
    var e0, e1, e2, e3 := Inject(1, 0), Claim(1, _ => 0), Inject(1, 0), Inject(1, 2);
    NothingYet(v, p, 1);
    ConsumeOnce(v.buckets[1], p, Op.Consume(0));
    InjectOnce(v, p, e0);
    AccountNext(v, p, [], e0, 1, v, 0, 0);
    var v1 := Next(v, p, e0);
    ClaimOnce(v1, p, e1);
    AccountNext(v, p, [] + [e0], e1, 1, v1, 1, 1);
    var v2 := Next(v1, p, e1);
    ConsumeOnce(v2.buckets[1], p, Op.Consume(0));
    InjectOnce(v2, p, e2);
    AccountNext(v, p, [] + [e0] + [e1], e2, 1, v2, 1, 1);
    var v3 := Next(v2, p, e2);
    ConsumeOnce(v3.buckets[1], p, Op.Consume(2));
    InjectOnce(v3, p, e3);
    AccountNext(v, p, [] + [e0] + [e1] + [e2], e3, 1, v3, 1, 1);
    es := [] + [e0] + [e1] + [e2] + [e3];
  }

  lemma NothingYet(v: State, p: Params, id: nat)
    requires WellFormed(v) && 0 < id < |v.buckets|
    ensures Account(v, p, [], id, v, 0, 0)
  {
  }

  lemma AppendCall(b: Bucket, p: Params, d: seq<Op>, c: seq<Op>)
    requires |c| <= 1
    ensures After(b, p, d + c) == if c == [] then After(b, p, d) else Done(After(b, p, d), p, c[0])
    ensures Spent(b, p, d + c) == Spent(b, p, d) + if c == [] then 0 else Cost(After(b, p, d), p, c[0])
  {
    hide Done, Cost;
    assert c == [] ==> d + c == d;
    assert c != [] ==> (d + c)[..|d + c| - 1] == d;
  }

  ghost predicate Within(es: seq<Event>, id: nat, from: nat, to: nat)
  {
    && (forall i: nat | i < |es| && !es[i].Complete? :: from <= Time(es[i], id) <= to)
    && forall i: nat, j: nat | i < j < |es| && !es[i].Complete? && !es[j].Complete? ::
        Time(es[i], id) <= Time(es[j], id)
  }

  lemma CallTime(v: State, e: Event, id: nat)
    requires 0 < id < |v.buckets|
    ensures var c := CallOn(v, e, id); |c| <= 1 && (c != [] ==> !e.Complete? && c[0].at == Time(e, id))
  {
  }

  lemma {:induction false} TraceTimes(v: State, p: Params, es: seq<Event>, id: nat, from: U64, to: nat)
    requires 0 < id < |v.buckets| && Within(es, id, from, to)
    ensures var c := Trace(v, p, es, id); Ordered(from, c) && forall k: nat | k < |c| :: c[k].at <= to
  {
    hide CallOn, Final, Time;
    if |es| > 0 {
      var n := |es| - 1;
      CallTime(Final(v, p, es[..n]), es[n], id);
      TraceTimes(v, p, es[..n], id, from, if es[n].Complete? then to else Time(es[n], id));
    }
  }

  lemma {:induction false} FinalSplit(v: State, p: Params, es: seq<Event>, i: nat)
    requires i <= |es|
    ensures Final(Final(v, p, es[..i]), p, es[i..]) == Final(v, p, es)
  {
    hide Next;
    if i == |es| {
      assert es[..i] == es;
    } else {
      var n := |es| - 1;
      FinalSplit(v, p, es[..n], i);
      assert es[..n][..i] == es[..i] && es[..n][i..] == es[i..][..n - i];
    }
  }

  lemma LegalSplit(v: State, p: Params, es: seq<Event>, i: nat)
    requires Legal(v, p, es) && i <= |es| && 0 < |v.buckets|
    ensures Legal(v, p, es[..i]) && Legal(Final(v, p, es[..i]), p, es[i..])
  {
    hide Next, Enabled, WellFormed;
    assert forall k: nat | k < i :: es[..i][..k] == es[..k];
    assert Legal(v, p, es[..i]);
    KeepsWellFormed(v, p, es[..i]);
    forall k: nat | k < |es| - i ensures Enabled(Final(Final(v, p, es[..i]), p, es[i..][..k]), es[i..][k]) {
      assert es[..i + k][..i] == es[..i] && es[..i + k][i..] == es[i..][..k];
      FinalSplit(v, p, es[..i + k], i);
    }
  }

  lemma KeepsWellFormed(v: State, p: Params, es: seq<Event>)
    requires Legal(v, p, es) && 0 < |v.buckets|
    ensures WellFormed(Final(v, p, es))
  {
    TraceRefines(v, p, es, 1);
  }

  // In any window of any run an interrupt is made pending at most max_tokens + rate * (to - from) / freq + 1 times.
  // The window is es[i..]; `start` bounds the clock from below before it.
  lemma RaiseBound(v: State, p: Params, es: seq<Event>, id: nat, i: nat, start: U64, from: U64, to: nat)
    requires Legal(v, p, es) && 0 < id < |v.buckets| && v.buckets[id].tokens <= p.max && v.buckets[id].last <= start
    requires i <= |es| && start <= from <= to && Within(es[..i], id, start, from) && Within(es[i..], id, from, to)
    ensures Raised(Final(v, p, es[..i]), p, es[i..], id) <= p.max + Earned(p, to - from) + 1
  {
    hide Legal, Final, WellFormed, Trace, Raised, Within, Budget, Earned;
    var w, b, c := Final(v, p, es[..i]), v.buckets[id], Trace(v, p, es[..i], id);
    LegalSplit(v, p, es, i);
    TraceRefines(v, p, es[..i], id);
    TraceTimes(v, p, es[..i], id, start, from);
    AfterPrefix(b, p, c);
    var u, d := w.buckets[id], Trace(w, p, es[i..], id);
    TraceRefines(w, p, es[i..], id);
    TraceTimes(w, p, es[i..], id, from, to);
    WindowBudget(u, p, d, from);
    BudgetBound(After(u, p, d), p, from, if d == [] then u.last else d[|d| - 1].at, to, Spent(u, p, d));
  }

  // ---------------------------------------------------------------- claims

  function Taken(es: seq<Event>, id: nat): nat
  {
    if |es| == 0 then 0
    else Taken(es[..|es| - 1], id) + if es[|es| - 1].Claim? && es[|es| - 1].id == id then 1 else 0
  }

  // Every time an interrupt is made pending it is claimed once, or is pending still.
  lemma {:induction false} ClaimsMatch(v: State, p: Params, es: seq<Event>, id: nat)
    requires Legal(v, p, es) && 0 < id < |v.buckets|
    ensures Raised(v, p, es, id) + (if id in v.pend then 1 else 0)
         == Taken(es, id) + (if id in Final(v, p, es).pend then 1 else 0)
  {
    hide Next;
    if |es| > 0 {
      var n := |es| - 1;
      assert Enabled(Final(v, p, es[..n]), es[n]);
      assert forall k: nat | k < n :: es[..n][..k] == es[..k];
      ClaimsMatch(v, p, es[..n], id);
      KeepsWellFormed(v, p, es[..n]);
      NextOne(Final(v, p, es[..n]), p, es[n], id);
    }
  }

  // A claimed interrupt is not claimed again before it is completed.
  lemma {:induction false} ClaimedOnce(v: State, p: Params, es: seq<Event>, i: nat, j: nat)
    requires Legal(v, p, es) && i < j < |es| && es[i].Claim? && es[j].Claim? && es[i].id == es[j].id != 0
    ensures exists k: nat :: i < k < j && es[k] == Complete(es[i].id)
  {
    assert Enabled(Final(v, p, es[..j]), es[j]);
    if forall k: nat | i < k < j :: es[k] != Complete(es[i].id) {
      StaysActive(v, p, es, i, j);
    }
  }

  lemma {:induction false} StaysActive(v: State, p: Params, es: seq<Event>, i: nat, j: nat)
    requires i < j <= |es| && es[i].Claim? && forall k: nat | i < k < j :: es[k] != Complete(es[i].id)
    ensures es[i].id in Final(v, p, es[..j]).act
    decreases j
  {
    hide Due, Drained, Asks;
    assert es[..j][..j - 1] == es[..j - 1];
    if j > i + 1 {
      StaysActive(v, p, es, i, j - 1);
      assert es[j - 1] != Complete(es[i].id);
    }
  }
}
