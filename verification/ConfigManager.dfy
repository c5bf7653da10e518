/**
 ConfigManager: a configuration snapshot that SwitchProfile replaces by compare-and-swap and
 Reload by a plain store, and reload counters that any number of reloads increment.
 */
module ConfigManager {
  import opened Bytes
  import opened Cas
  import opened MeshConfig

  // ---- the configuration snapshot -----------------------------------------------------

  datatype ConfigSnapshot = ConfigSnapshot(activeProfile: string, profiles: map<string, ProfileWeights>)

  /** SwitchProfile, and the store of a Reload whose file has been parsed. */
  datatype ConfigCall = Switch(profileName: string) | Install(raw: RawMeshConfig)

  function ApplyConfig(s: ConfigSnapshot, c: ConfigCall): Outcome<ConfigSnapshot> {
    match c
    case Switch(name) => if name in s.profiles then Becomes(ConfigSnapshot(name, s.profiles)) else Refuse
    case Install(raw) => Becomes(ConfigSnapshot(raw.activeProfile, raw.profiles))
  }

  /** The snapshot cell of a manager that was constructed from raw. */
  function Snapshots(raw: RawMeshConfig): Object<ConfigSnapshot, ConfigCall> {
    Object(ConfigSnapshot(raw.activeProfile, raw.profiles),
           (c: ConfigCall) => c.Install? ==> ConfigOk(c.raw),
           ApplyConfig,
           (c: ConfigCall) => c.Install?)
  }

  /** The configuration that was installed last; raw before the first Reload. */
  function LastInstalled(raw: RawMeshConfig, ops: seq<ConfigCall>): RawMeshConfig {
    if ops == [] then raw
    else if ops[|ops| - 1].Install? then ops[|ops| - 1].raw
    else LastInstalled(raw, ops[..|ops| - 1])
  }

  /** A snapshot whose active profile is one of its own, with weights that rank paths. */
  predicate SnapshotOk(s: ConfigSnapshot) {
    ConfigOk(RawMeshConfig(s.activeProfile, s.profiles))
  }

  /** Switching never mixes the profiles of two configurations. */
  lemma {:induction false} SnapshotStaysOk(raw: RawMeshConfig, ops: seq<ConfigCall>)
    requires ConfigOk(raw) && Replays(Snapshots(raw), ops)
    ensures var s := Sequentially(Snapshots(raw), ops);
            SnapshotOk(s) && s.profiles == LastInstalled(raw, ops).profiles
  {
    if ops != [] {
      SnapshotStaysOk(raw, ops[..|ops| - 1]);
    }
  }

  /**
   At any point of any interleaving of switches and reloads, readers find the active profile
   in the same snapshot's profiles, which are those of the last configuration installed.
   */
  lemma ActiveProfileDefined(raw: RawMeshConfig, n: nat, ws: seq<World<ConfigSnapshot, ConfigCall>>, i: nat)
    requires ConfigOk(raw) && IsRun(Snapshots(raw), n, ws) && i < |ws|
    ensures var w := ws[i];
            && w.cell < |w.heap|
            && var s := w.heap[w.cell];
               && s.activeProfile in s.profiles && WeightsOk(s.profiles[s.activeProfile])
               && s.profiles == LastInstalled(raw, Effects(w.trace)).profiles
  {
    hide IsRun, WeightsOk;
    Published(Snapshots(raw), n, ws, i);
    SnapshotStaysOk(raw, Effects(ws[i].trace));
  }

  /** The profile that the last call named: by switching to it, or by installing a configuration with it active. */
  function LastNamed(raw: RawMeshConfig, ops: seq<ConfigCall>): string {
    if ops == [] then raw.activeProfile
    else match ops[|ops| - 1]
         case Switch(name) => name
         case Install(installed) => installed.activeProfile
  }

  lemma {:induction false} SnapshotNamed(raw: RawMeshConfig, ops: seq<ConfigCall>)
    requires Replays(Snapshots(raw), ops)
    ensures Sequentially(Snapshots(raw), ops) == ConfigSnapshot(LastNamed(raw, ops), LastInstalled(raw, ops).profiles)
  {
    if ops != [] {
      SnapshotNamed(raw, ops[..|ops| - 1]);
    }
  }

  /**
   The snapshot is determined by the history: the profiles of the last configuration installed,
   and active among them the one named by the last call that took effect.
   */
  lemma SnapshotIs(raw: RawMeshConfig, n: nat, ws: seq<World<ConfigSnapshot, ConfigCall>>, i: nat)
    requires IsRun(Snapshots(raw), n, ws) && i < |ws|
    ensures var w, ops := ws[i], Effects(ws[i].trace);
            w.cell < |w.heap| && w.heap[w.cell] == ConfigSnapshot(LastNamed(raw, ops), LastInstalled(raw, ops).profiles)
  {
    hide IsRun;
    Published(Snapshots(raw), n, ws, i);
    SnapshotNamed(raw, Effects(ws[i].trace));
  }

  /** What the calls that took effect before event k have installed defines the profile. */
  ghost predicate DefinedAt(raw: RawMeshConfig, trace: seq<Event<ConfigCall>>, k: nat, name: string)
    requires k <= |trace|
  {
    name in LastInstalled(raw, Effects(trace[..k])).profiles
  }

  /**
   SwitchProfile returns no error exactly when the profile was defined at the one point, between
   its invocation and its return, at which it took effect or was turned down.
   */
  lemma SwitchReturns(raw: RawMeshConfig, n: nat, ws: seq<World<ConfigSnapshot, ConfigCall>>, i: nat, e: nat)
    returns (j: nat, k: nat)
    requires IsRun(Snapshots(raw), n, ws) && i < |ws|
    requires e < |ws[i].trace| && ws[i].trace[e].Return? && ws[i].trace[e].op.Switch?
    ensures var trace, op := ws[i].trace, ws[i].trace[e].op;
            && LastBefore(trace, trace[e].t, k, e) && LastBefore(trace, trace[e].t, j, k)
            && trace[j] == Invoke(trace[e].t, op)
            && trace[k] == (if trace[e].ok then Effect(trace[e].t, op) else Refusal(trace[e].t, op))
            && (trace[e].ok <==> DefinedAt(raw, trace, k, op.profileName))
  {
    hide IsRun, Legal, Effects, Sequentially, Replays, LastInstalled, LastNamed, PhaseOf;
    Linearizable(Snapshots(raw), n, ws, i);
    var trace := ws[i].trace;
    j, k := ReturnMeans(Snapshots(raw), ws[i], e);
    LegalPrefix(Snapshots(raw), trace, k);
    LegalReplays(Snapshots(raw), trace[..k]);
    SnapshotNamed(raw, Effects(trace[..k]));
  }

  lemma LegalPrefix<S, Op>(o: Object<S, Op>, trace: seq<Event<Op>>, k: nat)
    requires Legal(o, trace) && k <= |trace|
    ensures Legal(o, trace[..k])
  {
    assert forall i :: 0 <= i < k ==> trace[..k][..i] == trace[..i];
  }

  // ---- the reload counters ------------------------------------------------------------

  datatype ConfigMetrics = ConfigMetrics(reloadSuccess: nat, reloadFailure: nat)

  datatype CountCall = CountSuccess | CountFailure

  /** uint64 increments wrap around. */
  function ApplyCount(m: ConfigMetrics, c: CountCall): Outcome<ConfigMetrics> {
    match c
    case CountSuccess => Becomes(m.(reloadSuccess := (m.reloadSuccess + 1) % TWO64))
    case CountFailure => Becomes(m.(reloadFailure := (m.reloadFailure + 1) % TWO64))
  }

  /** The counters of a manager whose first load has succeeded and counted itself. */
  function Counters(): Object<ConfigMetrics, CountCall> {
    Object(ConfigMetrics(1, 0), c => true, ApplyCount, c => false)
  }

  function Count<T(==)>(x: T, s: seq<T>): nat {
    if s == [] then 0 else Count(x, s[..|s| - 1]) + if s[|s| - 1] == x then 1 else 0
  }

  lemma CountNone<T>(x: T)
    ensures Count(x, []) == 0
  {
  }

  lemma CountNext<T>(x: T, s: seq<T>, y: T)
    ensures Count(x, s + [y]) == Count(x, s) + if y == x then 1 else 0
  {
  }

  lemma Wraps(n: nat)
    ensures (n % TWO64 + 1) % TWO64 == (n + 1) % TWO64
  {
  }

  lemma {:induction false} CountersAre(ops: seq<CountCall>)
    ensures Sequentially(Counters(), ops)
        == ConfigMetrics((1 + Count(CountSuccess, ops)) % TWO64, Count(CountFailure, ops) % TWO64)
  {
    hide Count;
    if ops == [] {
      CountNone<CountCall>(CountSuccess);
      CountNone<CountCall>(CountFailure);
    } else {
      var prefix, op := ops[..|ops| - 1], ops[|ops| - 1];
      CountersAre(prefix);
      assert ops == prefix + [op];
      CountNext(CountSuccess, prefix, op);
      CountNext(CountFailure, prefix, op);
      Wraps(1 + Count(CountSuccess, prefix));
      Wraps(Count(CountFailure, prefix));
    }
  }

  /** No increment is lost: the counters are the first load and the increments committed, in 64 bits. */
  lemma CountersExact(n: nat, ws: seq<World<ConfigMetrics, CountCall>>, i: nat)
    requires IsRun(Counters(), n, ws) && i < |ws|
    ensures var w, ops := ws[i], Effects(ws[i].trace);
            w.cell < |w.heap| && w.heap[w.cell]
                == ConfigMetrics((1 + Count(CountSuccess, ops)) % TWO64, Count(CountFailure, ops) % TWO64)
  {
    hide IsRun;
    Published(Counters(), n, ws, i);
    CountersAre(Effects(ws[i].trace));
  }
}
