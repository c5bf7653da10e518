/**
 The lock-free snapshot protocol of common/a_star: threads load a shared pointer, build a
 new immutable snapshot and try to swap the pointer, starting over when another thread was
 faster. Every interleaving of their steps is shown to be linearizable.
 */
module Cas {

  datatype Outcome<+S> = Refuse | Becomes(next: S)

  /**
   A shared object: its first snapshot, the arguments its calls accept at all, what a call
   makes of a snapshot, and the calls that store without comparing.
   */
  datatype Object<!S, !Op> = Object(init: S, accepts: Op -> bool, apply: (S, Op) -> Outcome<S>, stores: Op -> bool)

  /** A plain store is never refused, and does not depend on the snapshot it replaces. */
  ghost predicate StoresBlindly<S(!new), Op(!new)>(o: Object<S, Op>) {
    forall s, s', op :: o.stores(op) ==> o.apply(s, op).Becomes? && o.apply(s, op) == o.apply(s', op)
  }

  /** Where a thread is in its call; since is when it loaded the pointer. */
  datatype Thread<+Op> =
    | Idle
    | Started(op: Op)
    | Loaded(op: Op, addr: nat, since: nat)
    | Done(op: Op, ok: bool)

  /** A call, the one point at which it takes effect or is turned down, and its return. */
  datatype Event<+Op> =
    | Invoke(t: nat, op: Op)
    | Effect(t: nat, op: Op)
    | Refusal(t: nat, op: Op)
    | Return(t: nat, op: Op, ok: bool)

  /** Snapshots by address, the shared pointer, the threads, and the history of events. */
  datatype World<+S, +Op> = World(heap: seq<S>, cell: nat, threads: seq<Thread<Op>>, trace: seq<Event<Op>>)

  datatype Step<+Op> =
    | BeginStep(t: nat, op: Op)
    | LoadStep(t: nat)
    | FailStep(t: nat)
    | CasStep(t: nat)
    | StoreStep(t: nat)
    | ReturnStep(t: nat)

  function Start<S, Op>(o: Object<S, Op>, n: nat): World<S, Op> {
    World([o.init], 0, seq(n, _ => Idle), [])
  }

  ghost predicate Enabled<S, Op>(o: Object<S, Op>, w: World<S, Op>, step: Step<Op>) {
    && step.t < |w.threads| && w.cell < |w.heap|
    && var th := w.threads[step.t];
       match step
       case BeginStep(_, _) => th.Idle?
       case LoadStep(_) => th.Started? && !o.stores(th.op)
       case FailStep(_) => th.Loaded? && th.addr < |w.heap| && o.apply(w.heap[th.addr], th.op).Refuse?
       case CasStep(_) => th.Loaded? && th.addr < |w.heap| && o.apply(w.heap[th.addr], th.op).Becomes?
       case StoreStep(_) => th.Started? && o.stores(th.op) && o.apply(w.heap[w.cell], th.op).Becomes?
       case ReturnStep(_) => th.Done?
  }

  /** The world with a new snapshot published by thread t. */
  function Publish<S, Op>(w: World<S, Op>, t: nat, op: Op, next: S): World<S, Op>
    requires t < |w.threads|
  {
    World(w.heap + [next], |w.heap|, w.threads[t := Done(op, true)], w.trace + [Effect(t, op)])
  }

  ghost function Next<S, Op>(o: Object<S, Op>, w: World<S, Op>, step: Step<Op>): World<S, Op>
    requires Enabled(o, w, step)
  {
    var t, th := step.t, w.threads[step.t];
    match step
    case BeginStep(_, op) =>
      if o.accepts(op) then w.(threads := w.threads[t := Started(op)], trace := w.trace + [Invoke(t, op)])
      else w.(threads := w.threads[t := Done(op, false)], trace := w.trace + [Invoke(t, op)] + [Refusal(t, op)])
    case LoadStep(_) =>
      // A refused call is turned down by the snapshot it loads here, although it finds out later.
      w.(threads := w.threads[t := Loaded(th.op, w.cell, |w.trace|)],
         trace := if o.apply(w.heap[w.cell], th.op).Refuse? then w.trace + [Refusal(t, th.op)] else w.trace)
    case FailStep(_) => w.(threads := w.threads[t := Done(th.op, false)])
    case CasStep(_) =>
      // The new snapshot is allocated before the comparison, and lost when that fails.
      var next := o.apply(w.heap[th.addr], th.op).next;
      if w.cell == th.addr then Publish(w, t, th.op, next)
      else w.(heap := w.heap + [next], threads := w.threads[t := Started(th.op)])
    case StoreStep(_) => Publish(w, t, th.op, o.apply(w.heap[w.cell], th.op).next)
    case ReturnStep(_) => w.(threads := w.threads[t := Idle], trace := w.trace + [Return(t, th.op, th.ok)])
  }

  // ---- what a history means -----------------------------------------------------------

  /** The calls that took effect, in that order. */
  function Effects<Op>(trace: seq<Event<Op>>): seq<Op> {
    if trace == [] then []
    else
      var last := trace[|trace| - 1];
      Effects(trace[..|trace| - 1]) + (if last.Effect? then [last.op] else [])
  }

  /** The object after calls made one after the other. */
  function Sequentially<S, Op>(o: Object<S, Op>, ops: seq<Op>): S {
    if ops == [] then o.init
    else
      var s := Sequentially(o, ops[..|ops| - 1]);
      match o.apply(s, ops[|ops| - 1])
      case Becomes(next) => next
      case Refuse => s
  }

  /** Each effect and each refusal is what the calls that took effect before it entail. */
  ghost predicate Legal<S, Op>(o: Object<S, Op>, trace: seq<Event<Op>>) {
    forall i :: 0 <= i < |trace| ==>
      var s := Sequentially(o, Effects(trace[..i]));
      match trace[i]
      case Effect(_, op) => o.accepts(op) && o.apply(s, op).Becomes?
      case Refusal(_, op) => !o.accepts(op) || o.apply(s, op).Refuse?
      case _ => true
  }

  /** How far a thread's current call has come, read off the history alone. */
  datatype Phase<+Op> = Outside | Pending(op: Op) | Effected(op: Op) | TurnedDown(op: Op) | Disorder

  function Advance<Op(==)>(p: Phase<Op>, e: Event<Op>): Phase<Op> {
    match e
    case Invoke(_, op) => if p == Outside then Pending(op) else Disorder
    case Effect(_, op) => if p == Pending(op) then Effected(op) else Disorder
    case Refusal(_, op) => if p == Pending(op) then TurnedDown(op) else Disorder
    case Return(_, op, ok) => if p == (if ok then Effected(op) else TurnedDown(op)) then Outside else Disorder
  }

  /** Disorder once a call of thread t has other than one effect or refusal between its invocation and its return. */
  function PhaseOf<Op(==)>(trace: seq<Event<Op>>, t: nat): Phase<Op> {
    if trace == [] then Outside
    else
      var p := PhaseOf(trace[..|trace| - 1], t);
      if trace[|trace| - 1].t == t then Advance(p, trace[|trace| - 1]) else p
  }

  /** Linearizability of a world: one sequential order of the effects explains the history and the shared snapshot. */
  ghost predicate Linearized<S, Op>(o: Object<S, Op>, w: World<S, Op>) {
    && w.cell < |w.heap|
    && Legal(o, w.trace)
    && w.heap[w.cell] == Sequentially(o, Effects(w.trace))
    && forall t: nat :: PhaseOf(w.trace, t) != Disorder
  }

  // ---- the invariant of every run -----------------------------------------------------

  ghost predicate NoEffectSince<Op>(trace: seq<Event<Op>>, since: nat) {
    forall i :: since <= i < |trace| ==> !trace[i].Effect?
  }

  /**
   Thread t's place in its call agrees with the history, and the pointer it loaded is current
   exactly while no call has taken effect since.
   */
  ghost predicate ThreadOk<S, Op>(o: Object<S, Op>, w: World<S, Op>, t: nat)
    requires t < |w.threads|
  {
    match w.threads[t]
    case Idle => PhaseOf(w.trace, t) == Outside
    case Started(op) => PhaseOf(w.trace, t) == Pending(op) && o.accepts(op)
    case Loaded(op, addr, since) =>
      && addr < |w.heap| && since <= |w.trace| && o.accepts(op)
      && PhaseOf(w.trace, t) == (if o.apply(w.heap[addr], op).Refuse? then TurnedDown(op) else Pending(op))
      && (addr == w.cell <==> NoEffectSince(w.trace, since))
    case Done(op, ok) => PhaseOf(w.trace, t) == if ok then Effected(op) else TurnedDown(op)
  }

  ghost predicate Inv<S, Op>(o: Object<S, Op>, w: World<S, Op>) {
    Linearized(o, w) && forall t :: 0 <= t < |w.threads| ==> ThreadOk(o, w, t)
  }

  lemma PhaseNext<Op>(trace: seq<Event<Op>>, e: Event<Op>, t: nat)
    ensures PhaseOf(trace + [e], t) == if e.t == t then Advance(PhaseOf(trace, t), e) else PhaseOf(trace, t)
  {
  }

  lemma SinceNext<Op>(trace: seq<Event<Op>>, e: Event<Op>, since: nat)
    requires since <= |trace|
    ensures NoEffectSince(trace + [e], since) <==> NoEffectSince(trace, since) && !e.Effect?
  {
    assert forall i :: 0 <= i < |trace| ==> (trace + [e])[i] == trace[i];
    assert (trace + [e])[|trace|] == e;
  }

  lemma EffectsNext<Op>(trace: seq<Event<Op>>, e: Event<Op>)
    ensures Effects(trace + [e]) == if e.Effect? then Effects(trace) + [e.op] else Effects(trace)
  {
  }

  lemma SequentiallyNext<S, Op>(o: Object<S, Op>, ops: seq<Op>, op: Op)
    requires o.apply(Sequentially(o, ops), op).Becomes?
    ensures Sequentially(o, ops + [op]) == o.apply(Sequentially(o, ops), op).next
  {
  }

  /** An event that the sequential object entails keeps the history legal. */
  lemma LegalNext<S, Op>(o: Object<S, Op>, trace: seq<Event<Op>>, e: Event<Op>)
    requires Legal(o, trace)
    requires var s := Sequentially(o, Effects(trace));
             match e
             case Effect(_, op) => o.accepts(op) && o.apply(s, op).Becomes?
             case Refusal(_, op) => !o.accepts(op) || o.apply(s, op).Refuse?
             case _ => true
    ensures Legal(o, trace + [e])
  {
    var more := trace + [e];
    forall i | 0 <= i < |more|
      ensures var s := Sequentially(o, Effects(more[..i]));
              match more[i]
              case Effect(_, op) => o.accepts(op) && o.apply(s, op).Becomes?
              case Refusal(_, op) => !o.accepts(op) || o.apply(s, op).Refuse?
              case _ => true
    {
      assert more[..i] == trace[..i];
      if i == |trace| {
        assert trace[..i] == trace;
      }
    }
  }

  /** Publishing what a call makes of the current snapshot. */
  lemma PublishKeeps<S, Op>(o: Object<S, Op>, w: World<S, Op>, t: nat, op: Op)
    requires Inv(o, w) && t < |w.threads| && PhaseOf(w.trace, t) == Pending(op) && o.accepts(op)
    requires o.apply(w.heap[w.cell], op).Becomes?
    ensures Inv(o, Publish(w, t, op, o.apply(w.heap[w.cell], op).next))
  {
    hide Legal, Effects, Sequentially, PhaseOf, NoEffectSince;
    var e := Effect(t, op);
    var w' := Publish(w, t, op, o.apply(w.heap[w.cell], op).next);
    LegalNext(o, w.trace, e);
    EffectsNext(w.trace, e);
    SequentiallyNext(o, Effects(w.trace), op);
    forall t': nat
      ensures PhaseOf(w'.trace, t') != Disorder
      ensures t' < |w'.threads| ==> ThreadOk(o, w', t')
    {
      PhaseNext(w.trace, e, t');
      assert w'.trace[|w.trace|] == e;
      if t' < |w.threads| {
        assert ThreadOk(o, w, t');
        if w.threads[t'].Loaded? {
          SinceNext(w.trace, e, w.threads[t'].since);
        }
      }
    }
  }

  /** Events other than effects leave the shared snapshot alone. */
  lemma QuietKeeps<S, Op>(o: Object<S, Op>, w: World<S, Op>, t: nat, e: Event<Op>, th: Thread<Op>)
    requires Inv(o, w) && t < |w.threads| && e.t == t && !e.Effect? && Advance(PhaseOf(w.trace, t), e) != Disorder
    requires e.Refusal? ==> !o.accepts(e.op) || o.apply(w.heap[w.cell], e.op).Refuse?
    requires var w' := w.(threads := w.threads[t := th], trace := w.trace + [e]);
             PhaseOf(w'.trace, t) == Advance(PhaseOf(w.trace, t), e) ==> ThreadOk(o, w', t)
    ensures Inv(o, w.(threads := w.threads[t := th], trace := w.trace + [e]))
  {
    hide Legal, Effects, Sequentially, PhaseOf, NoEffectSince;
    var w' := w.(threads := w.threads[t := th], trace := w.trace + [e]);
    LegalNext(o, w.trace, e);
    EffectsNext(w.trace, e);
    forall t': nat
      ensures PhaseOf(w'.trace, t') != Disorder
      ensures t' < |w'.threads| ==> ThreadOk(o, w', t')
    {
      PhaseNext(w.trace, e, t');
      if t' < |w.threads| && t' != t {
        assert ThreadOk(o, w, t');
        if w.threads[t'].Loaded? {
          SinceNext(w.trace, e, w.threads[t'].since);
        }
      }
    }
  }

  /** Every step of every thread keeps the invariant. */
  lemma StepKeeps<S(!new), Op(!new)>(o: Object<S, Op>, w: World<S, Op>, step: Step<Op>)
    requires Inv(o, w) && Enabled(o, w, step) && StoresBlindly(o)
    ensures Inv(o, Next(o, w, step))
  {
    hide Legal, Effects, Sequentially, PhaseOf, StoresBlindly;
    var t, th := step.t, w.threads[step.t];
    assert ThreadOk(o, w, t);
    match step
    case BeginStep(_, op) =>
      BeginKeeps(o, w, t, op);
    case LoadStep(_) =>
      LoadKeeps(o, w, t);
    case FailStep(_) =>
      OthersKept(o, w, Next(o, w, step), t);
    case CasStep(_) =>
      if w.cell == th.addr {
        PublishKeeps(o, w, t, th.op);
      } else {
        OthersKept(o, w, Next(o, w, step), t);
      }
    case StoreStep(_) =>
      PublishKeeps(o, w, t, th.op);
    case ReturnStep(_) =>
      PhaseNext(w.trace, Return(t, th.op, th.ok), t);
      QuietKeeps(o, w, t, Return(t, th.op, th.ok), Idle);
  }

  /** A step that leaves the history and the shared pointer alone, and at most allocates. */
  lemma OthersKept<S, Op>(o: Object<S, Op>, w: World<S, Op>, w': World<S, Op>, t: nat)
    requires Inv(o, w) && t < |w.threads| == |w'.threads| && w'.trace == w.trace && w'.cell == w.cell
    requires |w.heap| <= |w'.heap| && w'.heap[..|w.heap|] == w.heap
    requires forall t' :: 0 <= t' < |w.threads| && t' != t ==> w'.threads[t'] == w.threads[t']
    requires ThreadOk(o, w', t)
    ensures Inv(o, w')
  {
    hide Legal, Effects, Sequentially, PhaseOf;
    assert w'.heap[w.cell] == w'.heap[..|w.heap|][w.cell];
    forall t' | 0 <= t' < |w'.threads| && t' != t
      ensures ThreadOk(o, w', t')
    {
      assert ThreadOk(o, w, t');
      if w.threads[t'].Loaded? {
        assert w'.heap[w.threads[t'].addr] == w'.heap[..|w.heap|][w.threads[t'].addr];
      }
    }
  }

  lemma BeginKeeps<S, Op>(o: Object<S, Op>, w: World<S, Op>, t: nat, op: Op)
    requires Inv(o, w) && t < |w.threads| && w.threads[t].Idle?
    ensures Enabled(o, w, BeginStep(t, op)) && Inv(o, Next(o, w, BeginStep(t, op)))
  {
    hide Legal, Effects, Sequentially, PhaseOf;
    assert ThreadOk(o, w, t);
    var e, f := Invoke(t, op), Refusal(t, op);
    PhaseNext(w.trace, e, t);
    if o.accepts(op) {
      QuietKeeps(o, w, t, e, Started(op));
    } else {
      PhaseNext(w.trace + [e], f, t);
      InvokeRefused(o, w, t, op);
    }
  }

  lemma InvokeRefused<S, Op>(o: Object<S, Op>, w: World<S, Op>, t: nat, op: Op)
    requires Inv(o, w) && t < |w.threads| && w.threads[t].Idle? && !o.accepts(op)
    ensures Inv(o, w.(threads := w.threads[t := Done(op, false)],
        trace := w.trace + [Invoke(t, op)] + [Refusal(t, op)]))
  {
    hide Legal, Effects, Sequentially, PhaseOf, NoEffectSince;
    assert ThreadOk(o, w, t);
    var e, f := Invoke(t, op), Refusal(t, op);
    var w' := w.(threads := w.threads[t := Done(op, false)], trace := w.trace + [e] + [f]);
    LegalNext(o, w.trace, e);
    EffectsNext(w.trace, e);
    LegalNext(o, w.trace + [e], f);
    EffectsNext(w.trace + [e], f);
    forall t': nat
      ensures PhaseOf(w'.trace, t') != Disorder
      ensures t' < |w'.threads| ==> ThreadOk(o, w', t')
    {
      PhaseNext(w.trace, e, t');
      PhaseNext(w.trace + [e], f, t');
      if t' < |w.threads| && t' != t {
        assert ThreadOk(o, w, t');
        if w.threads[t'].Loaded? {
          SinceNext(w.trace, e, w.threads[t'].since);
          SinceNext(w.trace + [e], f, w.threads[t'].since);
        }
      }
    }
  }

  lemma LoadKeeps<S, Op>(o: Object<S, Op>, w: World<S, Op>, t: nat)
    requires Inv(o, w) && Enabled(o, w, LoadStep(t))
    ensures Inv(o, Next(o, w, LoadStep(t)))
  {
    hide Legal, Effects, Sequentially, PhaseOf;
    var th := w.threads[t];
    assert ThreadOk(o, w, t);
    var loaded := Loaded(th.op, w.cell, |w.trace|);
    if o.apply(w.heap[w.cell], th.op).Refuse? {
      QuietKeeps(o, w, t, Refusal(t, th.op), loaded);
    } else {
      OthersKept(o, w, Next(o, w, LoadStep(t)), t);
    }
  }

  // ---- runs ---------------------------------------------------------------------------

  ghost predicate Follows<S, Op(!new)>(o: Object<S, Op>, w: World<S, Op>, w': World<S, Op>) {
    exists step :: Enabled(o, w, step) && w' == Next(o, w, step)
  }

  /** Any interleaving of n threads, making any calls. */
  ghost predicate IsRun<S, Op(!new)>(o: Object<S, Op>, n: nat, ws: seq<World<S, Op>>) {
    && ws != [] && ws[0] == Start(o, n)
    && forall i :: 0 <= i < |ws| - 1 ==> Follows(o, ws[i], ws[i + 1])
  }

  lemma {:induction false} RunKeeps<S(!new), Op(!new)>(o: Object<S, Op>, n: nat, ws: seq<World<S, Op>>, i: nat)
    requires IsRun(o, n, ws) && StoresBlindly(o) && i < |ws|
    ensures Inv(o, ws[i])
  {
    if i > 0 {
      hide Inv, StoresBlindly;
      RunKeeps(o, n, ws, i - 1);
      assert Follows(o, ws[i - 1], ws[i - 1 + 1]);
      var step :| Enabled(o, ws[i - 1], step) && ws[i] == Next(o, ws[i - 1], step);
      StepKeeps(o, ws[i - 1], step);
    }
  }

  /** Every interleaving is linearizable, at every point of it. */
  lemma Linearizable<S(!new), Op(!new)>(o: Object<S, Op>, n: nat, ws: seq<World<S, Op>>, i: nat)
    requires IsRun(o, n, ws) && StoresBlindly(o) && i < |ws|
    ensures Linearized(o, ws[i])
  {
    RunKeeps(o, n, ws, i);
  }

  /** A compare-and-swap fails exactly when another call has taken effect since this thread loaded the pointer. */
  lemma LockFree<S(!new), Op(!new)>(o: Object<S, Op>, n: nat, ws: seq<World<S, Op>>, i: nat, t: nat)
    requires IsRun(o, n, ws) && StoresBlindly(o) && i < |ws| && Enabled(o, ws[i], CasStep(t))
    ensures var w, w' := ws[i], Next(o, ws[i], CasStep(t));
            w'.threads[t].Done? <==> NoEffectSince(w.trace, w.threads[t].since)
  {
    RunKeeps(o, n, ws, i);
    assert ThreadOk(o, ws[i], t);
  }

  /** Calls each of which is accepted, and not refused by what those before it left. */
  ghost predicate Replays<S, Op>(o: Object<S, Op>, ops: seq<Op>) {
    ops != [] ==>
      && Replays(o, ops[..|ops| - 1])
      && o.accepts(ops[|ops| - 1])
      && o.apply(Sequentially(o, ops[..|ops| - 1]), ops[|ops| - 1]).Becomes?
  }

  lemma {:induction false} LegalReplays<S, Op>(o: Object<S, Op>, trace: seq<Event<Op>>)
    requires Legal(o, trace)
    ensures Replays(o, Effects(trace))
  {
    hide Sequentially;
    if trace != [] {
      var n := |trace| - 1;
      assert forall i :: 0 <= i < n ==> trace[..n][..i] == trace[..i];
      LegalReplays(o, trace[..n]);
      var e := trace[n];
      if e.Effect? {
        var ops := Effects(trace[..n]);
        assert (ops + [e.op])[..|ops|] == ops;
        assert o.apply(Sequentially(o, ops), e.op).Becomes?;
      } else {
        assert Effects(trace) == Effects(trace[..n]);
      }
    }
  }

  /** At any point of any run the shared snapshot is what some accepted calls, one after the other, have made. */
  lemma Published<S(!new), Op(!new)>(o: Object<S, Op>, n: nat, ws: seq<World<S, Op>>, i: nat)
    requires IsRun(o, n, ws) && StoresBlindly(o) && i < |ws|
    ensures var w := ws[i];
            w.cell < |w.heap| && Replays(o, Effects(w.trace)) && w.heap[w.cell] == Sequentially(o, Effects(w.trace))
  {
    hide Legal, Sequentially, Effects, Replays, StoresBlindly, IsRun;
    Linearizable(o, n, ws, i);
    LegalReplays(o, ws[i].trace);
  }

  // ---- what a return means ------------------------------------------------------------

  /** Event k is the last one of thread t before event i. */
  predicate LastBefore<Op>(trace: seq<Event<Op>>, t: nat, k: nat, i: nat) {
    k < i <= |trace| && trace[k].t == t && forall l :: k < l < i ==> trace[l].t != t
  }

  /** A thread whose history is in order has been in order all along. */
  lemma {:induction false} InOrderBefore<Op>(trace: seq<Event<Op>>, t: nat, i: nat)
    requires i <= |trace| && PhaseOf(trace, t) != Disorder
    ensures PhaseOf(trace[..i], t) != Disorder
    decreases |trace|
  {
    if i < |trace| {
      var n := |trace| - 1;
      InOrderBefore(trace[..n], t, i);
      assert trace[..n][..i] == trace[..i];
    } else {
      assert trace[..i] == trace;
    }
  }

  /** A thread inside a call got there by its last event. */
  lemma {:induction false} PhaseMeans<Op>(trace: seq<Event<Op>>, t: nat) returns (k: nat)
    requires PhaseOf(trace, t) != Outside && PhaseOf(trace, t) != Disorder
    ensures LastBefore(trace, t, k, |trace|)
    ensures match PhaseOf(trace, t)
            case Pending(op) => trace[k] == Invoke(t, op)
            case Effected(op) => trace[k] == Effect(t, op) && PhaseOf(trace[..k], t) == Pending(op)
            case TurnedDown(op) => trace[k] == Refusal(t, op) && PhaseOf(trace[..k], t) == Pending(op)
            case _ => true
  {
    var n := |trace| - 1;
    if trace[n].t == t {
      k := n;
    } else {
      k := PhaseMeans(trace[..n], t);
      assert trace[..n][..k] == trace[..k];
    }
  }

  /** What a return that says ok, or not, has behind it. */
  ghost predicate Justifies<S, Op>(o: Object<S, Op>, trace: seq<Event<Op>>, i: nat, k: nat)
    requires k < i < |trace| && trace[i].Return?
  {
    var op, s := trace[i].op, Sequentially(o, Effects(trace[..k]));
    if trace[i].ok then trace[k] == Effect(trace[i].t, op) && o.accepts(op) && o.apply(s, op).Becomes?
    else trace[k] == Refusal(trace[i].t, op) && (!o.accepts(op) || o.apply(s, op).Refuse?)
  }

  /**
   A call returns ok when it has taken effect, and not ok when it has been turned down, by the
   calls that took effect before: at one point, k, after its invocation, j.
   */
  lemma ReturnMeans<S, Op>(o: Object<S, Op>, w: World<S, Op>, i: nat) returns (j: nat, k: nat)
    requires Linearized(o, w) && i < |w.trace| && w.trace[i].Return?
    ensures LastBefore(w.trace, w.trace[i].t, k, i) && LastBefore(w.trace, w.trace[i].t, j, k)
    ensures w.trace[j] == Invoke(w.trace[i].t, w.trace[i].op) && Justifies(o, w.trace, i, k)
  {
    hide Legal, Effects, Sequentially;
    var t, before, upTo := w.trace[i].t, w.trace[..i], w.trace[..i + 1];
    InOrderBefore(w.trace, t, i + 1);
    assert upTo[..i] == before;
    k := PhaseMeans(before, t);
    assert before[..k] == w.trace[..k];
    j := PhaseMeans(w.trace[..k], t);
    LegalAt(o, w.trace, k);
  }

  lemma LegalAt<S, Op>(o: Object<S, Op>, trace: seq<Event<Op>>, k: nat)
    requires Legal(o, trace) && k < |trace|
    ensures var s := Sequentially(o, Effects(trace[..k]));
            match trace[k]
            case Effect(_, op) => o.accepts(op) && o.apply(s, op).Becomes?
            case Refusal(_, op) => !o.accepts(op) || o.apply(s, op).Refuse?
            case _ => true
  {
  }

  /** A call that no snapshot turns down returns ok exactly when its argument is accepted. */
  lemma ReturnsAccepted<S(!new), Op(!new)>(o: Object<S, Op>, n: nat, ws: seq<World<S, Op>>, i: nat, e: nat)
    requires IsRun(o, n, ws) && StoresBlindly(o) && i < |ws| && e < |ws[i].trace| && ws[i].trace[e].Return?
    requires forall s :: o.apply(s, ws[i].trace[e].op).Becomes?
    ensures ws[i].trace[e].ok <==> o.accepts(ws[i].trace[e].op)
  {
    hide Legal, Effects, Sequentially, StoresBlindly, IsRun, Linearized;
    Linearizable(o, n, ws, i);
    var j, k := ReturnMeans(o, ws[i], e);
  }

  // ---- progress -----------------------------------------------------------------------

  /** A thread can always go on: begin any call, or take the next step of the one it is in. */
  lemma CanGoOn<S, Op>(o: Object<S, Op>, w: World<S, Op>, t: nat, op: Op)
    requires Inv(o, w) && t < |w.threads|
    requires w.threads[t].Started? && o.stores(w.threads[t].op) ==>
        o.apply(w.heap[w.cell], w.threads[t].op).Becomes?
    ensures match w.threads[t]
            case Idle => Enabled(o, w, BeginStep(t, op))
            case Started(c) => Enabled(o, w, if o.stores(c) then StoreStep(t) else LoadStep(t))
            case Loaded(c, addr, _) =>
              addr < |w.heap| && Enabled(o, w, if o.apply(w.heap[addr], c).Refuse? then FailStep(t) else CasStep(t))
            case Done(_, _) => Enabled(o, w, ReturnStep(t))
  {
    assert ThreadOk(o, w, t);
  }

  /** The steps of an accepted call that nobody gets in the way of. */
  ghost function Alone<S, Op>(o: Object<S, Op>, w: World<S, Op>, t: nat): World<S, Op>
    requires t < |w.threads| && w.cell < |w.heap| && w.threads[t].Started? && !o.stores(w.threads[t].op)
  {
    var loaded := Next(o, w, LoadStep(t));
    Next(o, loaded, if o.apply(w.heap[w.cell], w.threads[t].op).Refuse? then FailStep(t) else CasStep(t))
  }

  /** A thread left alone is done after one load and one attempt: ok with its effect published, or turned down. */
  lemma DoneAlone<S, Op>(o: Object<S, Op>, w: World<S, Op>, t: nat)
    requires t < |w.threads| && w.cell < |w.heap| && w.threads[t].Started? && !o.stores(w.threads[t].op)
    ensures var w', op, s := Alone(o, w, t), w.threads[t].op, w.heap[w.cell];
            && t < |w'.threads| && w'.cell < |w'.heap|
            && w'.threads[t] == Done(op, o.apply(s, op).Becomes?)
            && w'.heap[w'.cell] == match o.apply(s, op) case Becomes(next) => next case Refuse => s
  {
  }
}
