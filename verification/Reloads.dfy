/**
 Reload and SwitchProfile as whole calls over both cells of a ConfigManager: a successful
 Reload stores its snapshot first and counts itself afterwards, a failed one only counts.
 */
module Reloads {
  import opened Bytes
  import opened Cas
  import opened Options
  import opened MeshConfig
  import opened ConfigManager

  /** What a thread is doing; a Reload whose snapshot is stored turns from Installing to Counting(true). */
  datatype Doing = Nothing | Switching | Installing | Counting(ok: bool)

  type SnapWorld = World<ConfigSnapshot, ConfigCall>
  type CountWorld = World<ConfigMetrics, CountCall>

  /** Both cells, and what the threads are doing. */
  datatype Manager = Manager(snap: SnapWorld, counts: CountWorld, doing: seq<Doing>)

  datatype Move =
    | CallSwitch(t: nat, name: string)
    | CallReload(t: nat, parsed: Option<RawMeshConfig>)
    | SnapStep(snapStep: Step<ConfigCall>)
    | CountStep(countStep: Step<CountCall>)
    | SwitchReturns(t: nat)
    | StoreDone(t: nat)
    | ReloadReturns(t: nat)

  function CountOf(ok: bool): CountCall {
    if ok then CountSuccess else CountFailure
  }

  function Fresh(raw: RawMeshConfig, n: nat): Manager {
    Manager(Start(Snapshots(raw), n), Start(Counters(), n), seq(n, _ => Nothing))
  }

  /** A step inside a call, neither its beginning nor its return. */
  predicate Inside<Op>(step: Step<Op>) {
    !step.BeginStep? && !step.ReturnStep?
  }

  ghost predicate CanSnap(raw: RawMeshConfig, m: Manager, step: Step<ConfigCall>) {
    Enabled(Snapshots(raw), m.snap, step)
  }

  ghost predicate CanCount(m: Manager, step: Step<CountCall>) {
    Enabled(Counters(), m.counts, step)
  }

  ghost function Snap(raw: RawMeshConfig, m: Manager, step: Step<ConfigCall>): SnapWorld
    requires CanSnap(raw, m, step)
  {
    Next(Snapshots(raw), m.snap, step)
  }

  ghost function Counted(m: Manager, step: Step<CountCall>): CountWorld
    requires CanCount(m, step)
  {
    Next(Counters(), m.counts, step)
  }

  /** A parsed file that validates. */
  predicate Loadable(parsed: Option<RawMeshConfig>) {
    parsed.Some? && ConfigOk(parsed.value)
  }

  ghost predicate Moves(raw: RawMeshConfig, m: Manager, move: Move, m': Manager) {
    match move
    case CallSwitch(t, name) =>
      && t < |m.doing| && m.doing[t] == Nothing && CanSnap(raw, m, BeginStep(t, Switch(name)))
      && m' == Manager(Snap(raw, m, BeginStep(t, Switch(name))), m.counts, m.doing[t := Switching])
    case CallReload(t, parsed) =>
      && t < |m.doing| && m.doing[t] == Nothing
      && if Loadable(parsed) then
           && CanSnap(raw, m, BeginStep(t, Install(parsed.value)))
           && m' == Manager(Snap(raw, m, BeginStep(t, Install(parsed.value))), m.counts, m.doing[t := Installing])
         else
           && CanCount(m, BeginStep(t, CountFailure))
           && m' == Manager(m.snap, Counted(m, BeginStep(t, CountFailure)), m.doing[t := Counting(false)])
    case SnapStep(step) =>
      && Inside(step) && CanSnap(raw, m, step)
      && m' == Manager(Snap(raw, m, step), m.counts, m.doing)
    case CountStep(step) =>
      && Inside(step) && CanCount(m, step)
      && m' == Manager(m.snap, Counted(m, step), m.doing)
    case SwitchReturns(t) =>
      && t < |m.doing| && m.doing[t] == Switching && CanSnap(raw, m, ReturnStep(t))
      && m' == Manager(Snap(raw, m, ReturnStep(t)), m.counts, m.doing[t := Nothing])
    case StoreDone(t) =>
      && t < |m.doing| && m.doing[t] == Installing && CanSnap(raw, m, ReturnStep(t))
         && CanCount(m, BeginStep(t, CountSuccess))
      && m' == Manager(Snap(raw, m, ReturnStep(t)), Counted(m, BeginStep(t, CountSuccess)),
           m.doing[t := Counting(true)])
    case ReloadReturns(t) =>
      && t < |m.doing| && m.doing[t].Counting? && CanCount(m, ReturnStep(t))
      && m' == Manager(m.snap, Counted(m, ReturnStep(t)), m.doing[t := Nothing])
  }

  // ---- who owes a count ---------------------------------------------------------------

  /** The number of configurations stored. */
  function Installs(ops: seq<ConfigCall>): nat {
    if ops == [] then 0 else Installs(ops[..|ops| - 1]) + if ops[|ops| - 1].Install? then 1 else 0
  }

  lemma InstallsNext(ops: seq<ConfigCall>, op: ConfigCall)
    ensures Installs(ops + [op]) == Installs(ops) + if op.Install? then 1 else 0
  {
  }

  /** A thread whose reload has stored its configuration, or has failed, and is not counted yet. */
  predicate Owes(c: CountCall, d: Doing, snap: Thread<ConfigCall>, counts: Thread<CountCall>) {
    match c
    case CountSuccess => (d == Installing && snap.Done?) || (d == Counting(true) && !counts.Done?)
    case CountFailure => d == Counting(false) && !counts.Done?
  }

  predicate OwesAt(c: CountCall, m: Manager, t: nat) {
    && t < |m.doing| && t < |m.snap.threads| && t < |m.counts.threads|
    && Owes(c, m.doing[t], m.snap.threads[t], m.counts.threads[t])
  }

  /** How many of the first k threads owe a count. */
  function Owing(c: CountCall, m: Manager, k: nat): nat {
    if k == 0 then 0 else Owing(c, m, k - 1) + if OwesAt(c, m, k - 1) then 1 else 0
  }

  lemma {:induction false} OwingChanges(c: CountCall, m: Manager, m': Manager, t: nat, k: nat)
    requires forall i: nat :: i != t ==> OwesAt(c, m', i) == OwesAt(c, m, i)
    ensures Owing(c, m', k) == Owing(c, m, k) + One(t < k && OwesAt(c, m', t)) - One(t < k && OwesAt(c, m, t))
  {
    hide OwesAt;
    if k > 0 {
      OwingChanges(c, m, m', t, k - 1);
    }
  }

  lemma {:induction false} NobodyOwes(c: CountCall, m: Manager, k: nat)
    requires forall t :: 0 <= t < k ==> !OwesAt(c, m, t)
    ensures Owing(c, m, k) == 0
  {
    if k > 0 {
      NobodyOwes(c, m, k - 1);
    }
  }

  function One(b: bool): int {
    if b then 1 else 0
  }

  /** The cells' own views of thread t agree with what it is doing. */
  predicate Agrees(d: Doing, snap: Thread<ConfigCall>, counts: Thread<CountCall>) {
    match d
    case Nothing => snap.Idle? && counts.Idle?
    case Switching => !snap.Idle? && snap.op.Switch? && counts.Idle?
    case Installing => (snap.Started? || (snap.Done? && snap.ok)) && snap.op.Install? && counts.Idle?
    case Counting(ok) => snap.Idle? && !counts.Idle? && counts.op == CountOf(ok) && (counts.Done? ==> counts.ok)
  }

  /** The reloads among these moves that have found no loadable file. */
  function Failures(moves: seq<Move>): nat {
    if moves == [] then 0
    else
      var last := moves[|moves| - 1];
      Failures(moves[..|moves| - 1]) + if last.CallReload? && !Loadable(last.parsed) then 1 else 0
  }

  /** What there is to count: configurations stored, or reloads that failed. */
  function Due(c: CountCall, m: Manager, moves: seq<Move>): nat {
    match c
    case CountSuccess => Installs(Effects(m.snap.trace))
    case CountFailure => Failures(moves)
  }

  /** What is due is counted, or owed by exactly one thread. */
  predicate Settled(c: CountCall, m: Manager, moves: seq<Move>) {
    Due(c, m, moves) == Count(c, Effects(m.counts.trace)) + Owing(c, m, |m.doing|)
  }

  ghost predicate Sound(raw: RawMeshConfig, m: Manager) {
    && Inv(Snapshots(raw), m.snap) && Inv(Counters(), m.counts)
    && |m.doing| == |m.snap.threads| == |m.counts.threads|
    && forall t :: 0 <= t < |m.doing| ==> Agrees(m.doing[t], m.snap.threads[t], m.counts.threads[t])
  }

  /** The manager after these moves. */
  ghost predicate Balanced(raw: RawMeshConfig, m: Manager, moves: seq<Move>) {
    && Sound(raw, m)
    && Settled(CountSuccess, m, moves) && Settled(CountFailure, m, moves)
    && StoresKept(m, moves)
  }

  // ---- which configurations are stored ------------------------------------------------

  /** The configuration that a move brings in. */
  function LoadedBy(move: Move): multiset<RawMeshConfig> {
    if move.CallReload? && Loadable(move.parsed) then multiset{move.parsed.value} else multiset{}
  }

  /** The configurations that these moves have brought in. */
  function Loaded(moves: seq<Move>): multiset<RawMeshConfig> {
    if moves == [] then multiset{} else Loaded(moves[..|moves| - 1]) + LoadedBy(moves[|moves| - 1])
  }

  /** The configurations that have been stored. */
  function Installed(ops: seq<ConfigCall>): multiset<RawMeshConfig> {
    if ops == [] then multiset{} else Installed(ops[..|ops| - 1]) + InstalledBy(ops[|ops| - 1])
  }

  function InstalledBy(op: ConfigCall): multiset<RawMeshConfig> {
    if op.Install? then multiset{op.raw} else multiset{}
  }

  lemma InstalledNext(ops: seq<ConfigCall>, op: ConfigCall)
    ensures Installed(ops + [op]) == Installed(ops) + InstalledBy(op)
  {
  }

  /** The configuration that thread t has yet to store. */
  function Holding(m: Manager, t: nat): multiset<RawMeshConfig> {
    if t < |m.doing| && t < |m.snap.threads| && m.doing[t] == Installing && m.snap.threads[t].Started?
      then InstalledBy(m.snap.threads[t].op) else multiset{}
  }

  /** The configurations that the first k threads have yet to store. */
  function Outstanding(m: Manager, k: nat): multiset<RawMeshConfig> {
    if k == 0 then multiset{} else Outstanding(m, k - 1) + Holding(m, k - 1)
  }

  /** Every configuration brought in has been stored, once, or is about to be. */
  predicate StoresKept(m: Manager, moves: seq<Move>) {
    Loaded(moves) == Installed(Effects(m.snap.trace)) + Outstanding(m, |m.doing|)
  }

  lemma {:induction false} OutstandingChanges(m: Manager, m': Manager, t: nat, k: nat)
    requires forall i: nat :: i != t ==> Holding(m', i) == Holding(m, i)
    ensures t < k ==> Outstanding(m', k) + Holding(m, t) == Outstanding(m, k) + Holding(m', t)
    ensures t >= k ==> Outstanding(m', k) == Outstanding(m, k)
  {
    hide Holding;
    if k > 0 {
      OutstandingChanges(m, m', t, k - 1);
      if t < k - 1 {
        AddSame(Outstanding(m', k - 1), Holding(m, t), Outstanding(m, k - 1), Holding(m', t), Holding(m, k - 1));
      }
    }
  }

  lemma AddSame(a: multiset<RawMeshConfig>, b: multiset<RawMeshConfig>, c: multiset<RawMeshConfig>,
          d: multiset<RawMeshConfig>, e: multiset<RawMeshConfig>)
    requires a + b == c + d
    ensures (a + e) + b == (c + e) + d
  {
    assert (a + e) + b == (a + b) + e;
    assert (c + e) + d == (c + d) + e;
  }

  /** What a move by thread t brings in is stored by it, or held by thread t. */
  predicate HandsOn(m: Manager, m': Manager, t: nat, move: Move) {
    Installed(Effects(m'.snap.trace)) + Holding(m', t)
    == Installed(Effects(m.snap.trace)) + Holding(m, t) + LoadedBy(move)
  }

  lemma StoresFrom(m: Manager, m': Manager, t: nat, moves: seq<Move>, move: Move)
    requires StoresKept(m, moves) && HandsOn(m, m', t, move) && t < |m.doing| == |m'.doing|
    requires forall i: nat :: i != t ==> Holding(m', i) == Holding(m, i)
    ensures StoresKept(m', moves + [move])
  {
    hide Holding, Installed, Effects, Outstanding, LoadedBy;
    OutstandingChanges(m, m', t, |m.doing|);
    Cancelled(Loaded(moves), LoadedBy(move), Installed(Effects(m.snap.trace)), Installed(Effects(m'.snap.trace)),
        Outstanding(m, |m.doing|), Outstanding(m', |m.doing|), Holding(m, t), Holding(m', t));
  }

  lemma Cancelled(loaded: multiset<RawMeshConfig>, more: multiset<RawMeshConfig>, was: multiset<RawMeshConfig>,
          now: multiset<RawMeshConfig>, out: multiset<RawMeshConfig>, out': multiset<RawMeshConfig>,
          held: multiset<RawMeshConfig>, held': multiset<RawMeshConfig>)
    requires loaded == was + out && now + held' == was + held + more && out' + held == out + held'
    ensures loaded + more == now + out'
  {
    forall x: RawMeshConfig
      ensures (loaded + more)[x] == (now + out')[x]
    {
      assert (now + held')[x] == (was + held + more)[x];
      assert (out' + held)[x] == (out + held')[x];
    }
  }

  /** What one step does to the history of effects and to the threads. */
  lemma StepEffects<S, Op>(o: Object<S, Op>, w: World<S, Op>, step: Step<Op>)
    requires Enabled(o, w, step)
    ensures var w', t := Next(o, w, step), step.t;
            && |w'.threads| == |w.threads| && t < |w.threads|
            && (forall i :: 0 <= i < |w.threads| && i != t ==> w'.threads[i] == w.threads[i])
            && Effects(w'.trace)
               == if Inside(step) && w'.threads[t].Done? && w'.threads[t].ok then Effects(w.trace) + [w.threads[t].op]
                  else Effects(w.trace)
  {
    hide Effects;
    var t, th := step.t, w.threads[step.t];
    match step
    case BeginStep(_, op) =>
      EffectsNext(w.trace, Invoke(t, op));
      EffectsNext(w.trace + [Invoke(t, op)], Refusal(t, op));
    case LoadStep(_) =>
      EffectsNext(w.trace, Refusal(t, th.op));
    case FailStep(_) =>
    case CasStep(_) =>
      EffectsNext(w.trace, Effect(t, th.op));
    case StoreStep(_) =>
      EffectsNext(w.trace, Effect(t, th.op));
    case ReturnStep(_) =>
      EffectsNext(w.trace, Return(t, th.op, th.ok));
  }

  /** A move by thread t, as far as it goes for the balance. */
  lemma Rebalanced(raw: RawMeshConfig, m: Manager, m': Manager, t: nat, moves: seq<Move>, move: Move)
    requires Balanced(raw, m, moves) && Inv(Snapshots(raw), m'.snap) && Inv(Counters(), m'.counts)
    requires t < |m.doing| == |m'.doing| == |m'.snap.threads| == |m'.counts.threads|
    requires forall i :: 0 <= i < |m.doing| && i != t ==>
               m'.doing[i] == m.doing[i] && m'.snap.threads[i] == m.snap.threads[i]
                   && m'.counts.threads[i] == m.counts.threads[i]
    requires Agrees(m'.doing[t], m'.snap.threads[t], m'.counts.threads[t])
    requires Repays(CountSuccess, m, m', t, move) && Repays(CountFailure, m, m', t, move)
    requires HandsOn(m, m', t, move)
    ensures Balanced(raw, m', moves + [move])
  {
    hide Inv, Owes, Effects, Installs, Count, Owing, Agrees, Installed, Outstanding, Loaded, StoresKept, HandsOn;
    OwingChanges(CountSuccess, m, m', t, |m.doing|);
    OwingChanges(CountFailure, m, m', t, |m.doing|);
    StoresFrom(m, m', t, moves, move);
    assert (moves + [move])[..|moves|] == moves;
  }

  /** What becomes due is counted, or is owed by thread t. */
  predicate Repays(c: CountCall, m: Manager, m': Manager, t: nat, move: Move) {
    Due(c, m', [move]) - Due(c, m, [])
    == Count(c, Effects(m'.counts.trace)) - Count(c, Effects(m.counts.trace))
       + One(OwesAt(c, m', t)) - One(OwesAt(c, m, t))
  }

  lemma BlindStores(raw: RawMeshConfig)
    ensures StoresBlindly(Snapshots(raw)) && StoresBlindly(Counters())
  {
  }

  lemma SnapMoves(raw: RawMeshConfig, m: Manager, step: Step<ConfigCall>)
    requires Sound(raw, m) && CanSnap(raw, m, step)
    ensures var after := Snap(raw, m, step);
            && Inv(Snapshots(raw), after) && step.t < |after.threads| == |m.doing|
            && (forall i :: 0 <= i < |m.doing| && i != step.t ==> after.threads[i] == m.snap.threads[i])
            && Installs(Effects(after.trace)) == Installs(Effects(m.snap.trace))
               + One(Inside(step) && after.threads[step.t].Done? && after.threads[step.t].ok
                   && m.snap.threads[step.t].op.Install?)
            && Installed(Effects(after.trace)) == Installed(Effects(m.snap.trace))
               + if Inside(step) && after.threads[step.t].Done? && after.threads[step.t].ok
                   then InstalledBy(m.snap.threads[step.t].op) else multiset{}
  {
    hide Inv, Effects, Installs, Installed, InstalledBy, StoresBlindly, Next, Enabled, Owing, Agrees;
    BlindStores(raw);
    StepKeeps(Snapshots(raw), m.snap, step);
    StepEffects(Snapshots(raw), m.snap, step);
    if Inside(step) {
      InsideStarted(Snapshots(raw), m.snap, step);
      InstallsNext(Effects(m.snap.trace), m.snap.threads[step.t].op);
      InstalledNext(Effects(m.snap.trace), m.snap.threads[step.t].op);
    }
  }

  lemma InsideStarted<S, Op>(o: Object<S, Op>, w: World<S, Op>, step: Step<Op>)
    requires Enabled(o, w, step) && Inside(step)
    ensures step.t < |w.threads| && (w.threads[step.t].Started? || w.threads[step.t].Loaded?)
  {
  }

  lemma CountMoves(raw: RawMeshConfig, m: Manager, step: Step<CountCall>)
    requires Sound(raw, m) && CanCount(m, step)
    ensures var after := Counted(m, step);
            && Inv(Counters(), after) && step.t < |after.threads| == |m.doing|
            && (forall i :: 0 <= i < |m.doing| && i != step.t ==> after.threads[i] == m.counts.threads[i])
            && forall c: CountCall ::
                 Count(c, Effects(after.trace))
                 == Count(c, Effects(m.counts.trace))
                    + One(Inside(step) && after.threads[step.t].Done? && after.threads[step.t].ok
                          && m.counts.threads[step.t].op == c)
  {
    hide Inv, Effects, Count, StoresBlindly, Next, Enabled, Owing, Agrees;
    BlindStores(raw);
    StepKeeps(Counters(), m.counts, step);
    StepEffects(Counters(), m.counts, step);
    if Inside(step) {
      InsideStarted(Counters(), m.counts, step);
      CountNext(CountSuccess, Effects(m.counts.trace), m.counts.threads[step.t].op);
      CountNext(CountFailure, Effects(m.counts.trace), m.counts.threads[step.t].op);
    }
  }

  lemma CallKeeps(raw: RawMeshConfig, m: Manager, move: Move, m': Manager, moves: seq<Move>)
    requires Balanced(raw, m, moves) && Moves(raw, m, move, m') && (move.CallSwitch? || move.CallReload?)
    ensures Balanced(raw, m', moves + [move])
  {
    hide Inv, Effects, Installs, Installed, Count, ConfigOk, Balanced;
    BalancedIs(raw, m, moves);
    if move.CallSwitch? {
      SnapMoves(raw, m, BeginStep(move.t, Switch(move.name)));
    } else if Loadable(move.parsed) {
      SnapMoves(raw, m, BeginStep(move.t, Install(move.parsed.value)));
    } else {
      CountMoves(raw, m, BeginStep(move.t, CountFailure));
    }
    Rebalanced(raw, m, m', move.t, moves, move);
  }

  lemma InsideKeeps(raw: RawMeshConfig, m: Manager, move: Move, m': Manager, moves: seq<Move>)
    requires Balanced(raw, m, moves) && Moves(raw, m, move, m') && (move.SnapStep? || move.CountStep?)
    ensures Balanced(raw, m', moves + [move])
  {
    hide Inv, Effects, Installs, Installed, Count, ConfigOk, Balanced;
    BalancedIs(raw, m, moves);
    if move.SnapStep? {
      SnapMoves(raw, m, move.snapStep);
      Rebalanced(raw, m, m', move.snapStep.t, moves, move);
    } else {
      CountMoves(raw, m, move.countStep);
      Rebalanced(raw, m, m', move.countStep.t, moves, move);
    }
  }

  lemma ReturnKeeps(raw: RawMeshConfig, m: Manager, move: Move, m': Manager, moves: seq<Move>)
    requires Balanced(raw, m, moves) && Moves(raw, m, move, m')
        && (move.SwitchReturns? || move.StoreDone? || move.ReloadReturns?)
    ensures Balanced(raw, m', moves + [move])
  {
    hide Inv, Effects, Installs, Installed, Count, ConfigOk, Balanced;
    BalancedIs(raw, m, moves);
    if move.SwitchReturns? {
      SnapMoves(raw, m, ReturnStep(move.t));
    } else if move.StoreDone? {
      SnapMoves(raw, m, ReturnStep(move.t));
      CountMoves(raw, m, BeginStep(move.t, CountSuccess));
    } else {
      CountMoves(raw, m, ReturnStep(move.t));
    }
    Rebalanced(raw, m, m', move.t, moves, move);
  }

  lemma BalancedIs(raw: RawMeshConfig, m: Manager, moves: seq<Move>)
    requires Balanced(raw, m, moves)
    ensures Sound(raw, m) && |m.doing| == |m.snap.threads| == |m.counts.threads| && Inv(Snapshots(raw), m.snap)
        && Inv(Counters(), m.counts)
    ensures forall t :: 0 <= t < |m.doing| ==> Agrees(m.doing[t], m.snap.threads[t], m.counts.threads[t])
  {
    hide Inv, StoresKept, Settled;
  }

  /** Every move of every thread keeps the balance. */
  lemma MoveKeeps(raw: RawMeshConfig, m: Manager, move: Move, m': Manager, moves: seq<Move>)
    requires Balanced(raw, m, moves) && Moves(raw, m, move, m')
    ensures Balanced(raw, m', moves + [move])
  {
    hide Balanced, Moves;
    match move
    case CallSwitch(_, _) => CallKeeps(raw, m, move, m', moves);
    case CallReload(_, _) => CallKeeps(raw, m, move, m', moves);
    case SnapStep(_) => InsideKeeps(raw, m, move, m', moves);
    case CountStep(_) => InsideKeeps(raw, m, move, m', moves);
    case _ => ReturnKeeps(raw, m, move, m', moves);
  }

  // ---- runs ---------------------------------------------------------------------------

  /** Any interleaving of switches and reloads by n threads on a manager constructed from raw. */
  ghost predicate IsHistory(raw: RawMeshConfig, n: nat, ms: seq<Manager>, moves: seq<Move>) {
    && |ms| == |moves| + 1 && ms[0] == Fresh(raw, n)
    && forall i :: 0 <= i < |moves| ==> Moves(raw, ms[i], moves[i], ms[i + 1])
  }

  lemma FreshBalanced(raw: RawMeshConfig, n: nat)
    ensures Balanced(raw, Fresh(raw, n), [])
  {
    NobodyOwes(CountSuccess, Fresh(raw, n), n);
    NobodyOwes(CountFailure, Fresh(raw, n), n);
    NothingHeld(Fresh(raw, n), n);
  }

  lemma {:induction false} NothingHeld(m: Manager, k: nat)
    requires forall t: nat :: t < k ==> Holding(m, t) == multiset{}
    ensures Outstanding(m, k) == multiset{}
  {
    hide Holding;
    if k > 0 {
      NothingHeld(m, k - 1);
    }
  }

  lemma {:induction false} StaysBalanced(raw: RawMeshConfig, n: nat, ms: seq<Manager>, moves: seq<Move>, i: nat)
    requires IsHistory(raw, n, ms, moves) && i < |ms|
    ensures Balanced(raw, ms[i], moves[..i])
  {
    hide Balanced, Moves, Fresh;
    if i == 0 {
      FreshBalanced(raw, n);
    } else {
      StaysBalanced(raw, n, ms, moves, i - 1);
      assert Moves(raw, ms[i - 1], moves[i - 1], ms[i - 1 + 1]);
      MoveKeeps(raw, ms[i - 1], moves[i - 1], ms[i], moves[..i - 1]);
      assert moves[..i - 1] + [moves[i - 1]] == moves[..i];
    }
  }

  /** No thread is in a call. */
  predicate Quiet(m: Manager) {
    forall t :: 0 <= t < |m.doing| ==> m.doing[t] == Nothing
  }

  /**
   Conservation of reloads: at any point of any history each counter that GetMetrics returns, plus
   the reloads that are not counted yet, is the number of configurations stored, the first one
   included, or of reloads that found no loadable file, modulo 2^64; and the configurations stored
   are those that reloads have found, but for those that are about to be stored.
   */
  lemma ReloadsConserved(raw: RawMeshConfig, n: nat, ms: seq<Manager>, moves: seq<Move>, i: nat)
    requires IsHistory(raw, n, ms, moves) && i < |ms|
    ensures var m := ms[i];
            && m.counts.cell < |m.counts.heap|
            && var metrics := m.counts.heap[m.counts.cell];
               && (metrics.reloadSuccess + Owing(CountSuccess, m, |m.doing|)) % TWO64
                  == (1 + Installs(Effects(m.snap.trace))) % TWO64
               && (metrics.reloadFailure + Owing(CountFailure, m, |m.doing|)) % TWO64 == Failures(moves[..i]) % TWO64
    ensures StoresKept(ms[i], moves[..i])
  {
    hide Count, Installs, Effects, Legal, PhaseOf, ThreadOk, Sequentially, Owing, Moves, StoresKept, Failures;
    StaysBalanced(raw, n, ms, moves, i);
    var m := ms[i];
    var ops := Effects(m.counts.trace);
    CountersAre(ops);
    SumWraps(1 + Count(CountSuccess, ops), Owing(CountSuccess, m, |m.doing|));
    SumWraps(Count(CountFailure, ops), Owing(CountFailure, m, |m.doing|));
  }

  lemma SumWraps(a: nat, b: nat)
    ensures (a % TWO64 + b) % TWO64 == (a + b) % TWO64
  {
  }

  /** With no call under way, the counters and the configurations stored are exactly what the calls made come to. */
  lemma QuietExact(raw: RawMeshConfig, n: nat, ms: seq<Manager>, moves: seq<Move>, i: nat)
    requires IsHistory(raw, n, ms, moves) && i < |ms| && Quiet(ms[i])
    ensures var m := ms[i];
            && m.counts.cell < |m.counts.heap|
            && m.counts.heap[m.counts.cell]
               == ConfigMetrics((1 + |Loaded(moves[..i])|) % TWO64, Failures(moves[..i]) % TWO64)
            && Installed(Effects(m.snap.trace)) == Loaded(moves[..i])
  {
    hide Count, Installs, Effects, Legal, PhaseOf, ThreadOk, Sequentially, Owing, Moves, Failures, Outstanding,
        Installed, Loaded;
    StaysBalanced(raw, n, ms, moves, i);
    var m := ms[i];
    CountersAre(Effects(m.counts.trace));
    NobodyOwes(CountSuccess, m, |m.doing|);
    NobodyOwes(CountFailure, m, |m.doing|);
    NothingHeld(m, |m.doing|);
    InstalledCount(Effects(m.snap.trace));
  }

  lemma {:induction false} InstalledCount(ops: seq<ConfigCall>)
    ensures |Installed(ops)| == Installs(ops)
  {
    if ops != [] {
      InstalledCount(ops[..|ops| - 1]);
    }
  }

  /**
   Whatever reloads and switches race each other, readers find the profiles of the last
   configuration stored, and active among them, with valid weights, the profile named last.
   */
  lemma ReadersSafe(raw: RawMeshConfig, n: nat, ms: seq<Manager>, moves: seq<Move>, i: nat)
    requires IsHistory(raw, n, ms, moves) && i < |ms| && ConfigOk(raw)
    ensures var w, ops := ms[i].snap, Effects(ms[i].snap.trace);
            && w.cell < |w.heap|
            && w.heap[w.cell] == ConfigSnapshot(LastNamed(raw, ops), LastInstalled(raw, ops).profiles)
            && w.heap[w.cell].activeProfile in w.heap[w.cell].profiles && SnapshotOk(w.heap[w.cell])
  {
    hide Legal, PhaseOf, ThreadOk, Sequentially, Effects, Replays, ConfigOk, Moves, StoresKept, Settled;
    StaysBalanced(raw, n, ms, moves, i);
    LegalReplays(Snapshots(raw), ms[i].snap.trace);
    SnapshotStaysOk(raw, Effects(ms[i].snap.trace));
    SnapshotNamed(raw, Effects(ms[i].snap.trace));
    Defined(ms[i].snap.heap[ms[i].snap.cell]);
  }

  lemma Defined(s: ConfigSnapshot)
    requires SnapshotOk(s)
    ensures s.activeProfile in s.profiles
  {
  }
}
