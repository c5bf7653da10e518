/** The floating-point values that the telemetry code accepts or turns down, with reals for the finite ones. */
module Floats {
  datatype Float = NaN | Infinite(negative: bool) | Finite(r: real)

  /** f < r; a comparison with NaN is false. */
  predicate Below(f: Float, r: real) {
    match f
    case NaN => false
    case Infinite(negative) => negative
    case Finite(x) => x < r
  }

  /** f > r; a comparison with NaN is false. */
  predicate Above(f: Float, r: real) {
    match f
    case NaN => false
    case Infinite(negative) => !negative
    case Finite(x) => x > r
  }

  predicate NotFinite(f: Float) {
    f.NaN? || f.Infinite?
  }
}

/** GMetrics: four writers, each replacing its own field of one shared snapshot. */
module Telemetry {
  import opened Floats
  import opened Cas

  const MAX_LOSS := 1.0

  datatype TelemetrySnapshot = TelemetrySnapshot(loss: real, rtt: real, load: real, energy: real)

  datatype Update = UpdateLoss(v: Float) | UpdateRtt(v: Float) | UpdateLoad(v: Float) | UpdateEnergy(v: Float)

  /** isValidTelemetry and the range test of each writer: an update failing them returns at once. */
  predicate Accepts(u: Update) {
    && !NotFinite(u.v) && !Below(u.v, 0.0)
    && match u
       case UpdateLoss(v) => !Above(v, MAX_LOSS)
       case UpdateRtt(_) => true
       case UpdateLoad(v) => !Above(v, 1.0)
       case UpdateEnergy(v) => !Above(v, 1.0)
  }

  function Value(f: Float): real {
    if f.Finite? then f.r else 0.0
  }

  /** The next snapshot: one field new, the others copied from the snapshot that was loaded. */
  function Apply(s: TelemetrySnapshot, u: Update): Outcome<TelemetrySnapshot> {
    Becomes(
      match u
      case UpdateLoss(v) => TelemetrySnapshot(Value(v), s.rtt, s.load, s.energy)
      case UpdateRtt(v) => TelemetrySnapshot(s.loss, Value(v), s.load, s.energy)
      case UpdateLoad(v) => TelemetrySnapshot(s.loss, s.rtt, Value(v), s.energy)
      case UpdateEnergy(v) => TelemetrySnapshot(s.loss, s.rtt, s.load, Value(v)))
  }

  function GMetrics(): Object<TelemetrySnapshot, Update> {
    Object(TelemetrySnapshot(0.0, 0.0, 0.0, 0.0), Accepts, Apply, u => false)
  }

  /** The value of the last update that the writer selected by mine made, 0 before the first. */
  function Latest(mine: Update -> bool, ops: seq<Update>): real {
    if ops == [] then 0.0
    else if mine(ops[|ops| - 1]) then Value(ops[|ops| - 1].v)
    else Latest(mine, ops[..|ops| - 1])
  }

  /** No update is lost, whatever the writers of the other fields do. */
  predicate LatestOfEach(s: TelemetrySnapshot, ops: seq<Update>) {
    && s.loss == Latest((u: Update) => u.UpdateLoss?, ops)
    && s.rtt == Latest((u: Update) => u.UpdateRtt?, ops)
    && s.load == Latest((u: Update) => u.UpdateLoad?, ops)
    && s.energy == Latest((u: Update) => u.UpdateEnergy?, ops)
  }

  predicate InRange(s: TelemetrySnapshot) {
    0.0 <= s.loss <= MAX_LOSS && 0.0 <= s.rtt && 0.0 <= s.load <= 1.0 && 0.0 <= s.energy <= 1.0
  }

  lemma {:induction false} NoneLost(ops: seq<Update>)
    requires Replays(GMetrics(), ops)
    ensures LatestOfEach(Sequentially(GMetrics(), ops), ops) && InRange(Sequentially(GMetrics(), ops))
  {
    if ops != [] {
      NoneLost(ops[..|ops| - 1]);
    }
  }

  /** The values that a writer takes: finite, not negative, and none but the round-trip time above 1. */
  predicate Takes(u: Update) {
    u.v.Finite? && 0.0 <= u.v.r && (u.UpdateRtt? || u.v.r <= 1.0)
  }

  /** A call returns with its effect made exactly when the writer takes its value. */
  lemma UpdateReturns(n: nat, ws: seq<World<TelemetrySnapshot, Update>>, i: nat, e: nat)
    requires IsRun(GMetrics(), n, ws) && i < |ws| && e < |ws[i].trace| && ws[i].trace[e].Return?
    ensures ws[i].trace[e].ok <==> Takes(ws[i].trace[e].op)
  {
    hide IsRun;
    ReturnsAccepted(GMetrics(), n, ws, i, e);
  }

  /**
   At any point of any interleaving of the four writers, the snapshot that GetSnapshot returns
   holds in each field the last committed update of that field, within its range.
   */
  lemma SnapshotIs(n: nat, ws: seq<World<TelemetrySnapshot, Update>>, i: nat)
    requires IsRun(GMetrics(), n, ws) && i < |ws|
    ensures var w := ws[i];
            && w.cell < |w.heap|
            && LatestOfEach(w.heap[w.cell], Effects(w.trace)) && InRange(w.heap[w.cell])
  {
    hide IsRun, LatestOfEach;
    Published(GMetrics(), n, ws, i);
    NoneLost(Effects(ws[i].trace));
  }
}
