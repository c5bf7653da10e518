/** The mesh configuration and its validation. */
module MeshConfig {
  import opened Floats
  import opened Options

  const EPSILON := 0.000000001
  const MAX_WEIGHT := 100.0

  datatype ProfileWeights = ProfileWeights(
    name: string, description: string, weightLoss: Float, weightPing: Float, weightLoad: Float, weightPower: Float)

  datatype RawMeshConfig = RawMeshConfig(activeProfile: string, profiles: map<string, ProfileWeights>)

  datatype Field = WeightLoss | WeightPing | WeightLoad | WeightPower

  datatype ConfigError =
    | EmptyActiveProfile
    | UndefinedActiveProfile
    | EmptyIdentifier
    | NegativeWeight(name: string, field: Field)
    | InvalidWeight(name: string, field: Field)
    | ExcessiveWeight(name: string, field: Field)
    | AllWeightsZero(name: string)

  // ---- strings.TrimSpace --------------------------------------------------------------

  /** unicode.IsSpace */
  predicate IsSpace(c: char) {
    var n := c as int;
    || 9 <= n <= 13 || n == 0x20 || n == 0x85 || n == 0xa0 || n == 0x1680 || 0x2000 <= n <= 0x200a
    || n == 0x2028 || n == 0x2029 || n == 0x202f || n == 0x205f || n == 0x3000
  }

  /** The characters with property White_Space in the Unicode character database. */
  const WHITE_SPACE: seq<int> := [
    0x0009, 0x000a, 0x000b, 0x000c, 0x000d, 0x0020, 0x0085, 0x00a0, 0x1680, 0x2000, 0x2001, 0x2002, 0x2003, 0x2004,
    0x2005, 0x2006, 0x2007, 0x2008, 0x2009, 0x200a, 0x2028, 0x2029, 0x202f, 0x205f, 0x3000]

  lemma SpaceExactly(c: char)
    ensures IsSpace(c) <==> c as int in WHITE_SPACE
  {
  }

  method TrimSpace(s: string) returns (r: string)
    ensures r == "" <==> Blank(s)
    ensures r != "" ==> !IsSpace(r[0]) && !IsSpace(r[|r| - 1])
    ensures exists lo, hi :: 0 <= lo <= hi <= |s| && r == s[lo..hi] && Blank(s[..lo]) && Blank(s[hi..])
  {
    var lo, hi := 0, |s|;
    while lo < |s| && IsSpace(s[lo])
      invariant lo <= |s| && forall k :: 0 <= k < lo ==> IsSpace(s[k])
    {
      lo := lo + 1;
    }
    while hi > lo && IsSpace(s[hi - 1])
      invariant lo <= hi <= |s| && forall k :: hi <= k < |s| ==> IsSpace(s[k])
    {
      hi := hi - 1;
    }
    r := s[lo..hi];
    assert r != "" ==> !IsSpace(s[lo]);
  }

  /** Nothing but white space. */
  predicate Blank(s: string) {
    forall k :: 0 <= k < |s| ==> IsSpace(s[k])
  }

  // ---- validation ---------------------------------------------------------------------

  function Weight(p: ProfileWeights, f: Field): Float {
    match f
    case WeightLoss => p.weightLoss
    case WeightPing => p.weightPing
    case WeightLoad => p.weightLoad
    case WeightPower => p.weightPower
  }

  const FIELDS: seq<Field> := [WeightLoss, WeightPing, WeightLoad, WeightPower]

  predicate WeightOk(w: Float) {
    w.Finite? && 0.0 <= w.r <= MAX_WEIGHT
  }

  /** Weights that can rank paths: each within its range, and not all zero. */
  predicate WeightsOk(p: ProfileWeights) {
    && WeightOk(p.weightLoss) && WeightOk(p.weightPing) && WeightOk(p.weightLoad) && WeightOk(p.weightPower)
    && p.weightLoss.r + p.weightPing.r + p.weightLoad.r + p.weightPower.r >= EPSILON
  }

  /** The limits in figures: weights from 0 to 100, that come to a billionth or more. */
  lemma Limits(p: ProfileWeights)
    ensures WeightsOk(p)
        <==> exists a: real, b: real, c: real, d: real ::
               && p.weightLoss == Finite(a) && p.weightPing == Finite(b) && p.weightLoad == Finite(c)
               && p.weightPower == Finite(d)
               && 0.0 <= a <= 100.0 && 0.0 <= b <= 100.0 && 0.0 <= c <= 100.0 && 0.0 <= d <= 100.0
               && a + b + c + d >= 0.000000001
  {
  }

  predicate ConfigOk(raw: RawMeshConfig) {
    && !Blank(raw.activeProfile)
    && raw.activeProfile in raw.profiles
    && forall name :: name in raw.profiles ==> !Blank(name) && WeightsOk(raw.profiles[name])
  }

  /** The first weight, in the order of the fields, that is not within its range. */
  predicate FirstBad(p: ProfileWeights, f: Field) {
    && !WeightOk(Weight(p, f))
    && (f != WeightLoss ==> WeightOk(p.weightLoss))
    && (f == WeightLoad || f == WeightPower ==> WeightOk(p.weightPing))
    && (f == WeightPower ==> WeightOk(p.weightLoad))
  }

  /** The error is about something that is wrong with the configuration, of a profile's weights about the first. */
  predicate Justified(raw: RawMeshConfig, e: ConfigError) {
    match e
    case EmptyActiveProfile => Blank(raw.activeProfile)
    case UndefinedActiveProfile => !Blank(raw.activeProfile) && raw.activeProfile !in raw.profiles
    case EmptyIdentifier => exists name :: name in raw.profiles && Blank(name)
    case NegativeWeight(name, f) =>
      name in raw.profiles && FirstBad(raw.profiles[name], f) && Below(Weight(raw.profiles[name], f), 0.0)
    case InvalidWeight(name, f) =>
      && name in raw.profiles && FirstBad(raw.profiles[name], f)
      && (Weight(raw.profiles[name], f).NaN? || Weight(raw.profiles[name], f) == Infinite(false))
    case ExcessiveWeight(name, f) =>
      && name in raw.profiles && FirstBad(raw.profiles[name], f)
      && Weight(raw.profiles[name], f).Finite? && Weight(raw.profiles[name], f).r > MAX_WEIGHT
    case AllWeightsZero(name) =>
      && name in raw.profiles
      && var p := raw.profiles[name];
         && WeightOk(p.weightLoss) && WeightOk(p.weightPing) && WeightOk(p.weightLoad) && WeightOk(p.weightPower)
         && p.weightLoss.r + p.weightPing.r + p.weightLoad.r + p.weightPower.r < EPSILON
  }

  /** The sum of the first n weights, all finite. */
  function SumOf(p: ProfileWeights, n: nat): real
    requires n <= 4 && forall k :: 0 <= k < n ==> WeightOk(Weight(p, FIELDS[k]))
  {
    if n == 0 then 0.0
    else
      assert WeightOk(Weight(p, FIELDS[n - 1]));
      SumOf(p, n - 1) + Weight(p, FIELDS[n - 1]).r
  }

  lemma AllFour(p: ProfileWeights)
    requires forall k :: 0 <= k < 4 ==> WeightOk(Weight(p, FIELDS[k]))
    ensures WeightOk(p.weightLoss) && WeightOk(p.weightPing) && WeightOk(p.weightLoad) && WeightOk(p.weightPower)
    ensures SumOf(p, 4) == p.weightLoss.r + p.weightPing.r + p.weightLoad.r + p.weightPower.r >= 0.0
  {
    assert FIELDS[0] == WeightLoss && FIELDS[1] == WeightPing && FIELDS[2] == WeightLoad && FIELDS[3] == WeightPower;
    assert WeightOk(Weight(p, FIELDS[0])) && WeightOk(Weight(p, FIELDS[1])) && WeightOk(Weight(p, FIELDS[2]))
        && WeightOk(Weight(p, FIELDS[3]));
    assert SumOf(p, 1) == SumOf(p, 0) + p.weightLoss.r;
    assert SumOf(p, 2) == SumOf(p, 1) + p.weightPing.r;
    assert SumOf(p, 3) == SumOf(p, 2) + p.weightLoad.r;
  }

  /** The body of the loop over profiles. */
  method ValidateProfile(raw: RawMeshConfig, name: string) returns (error: Option<ConfigError>)
    requires name in raw.profiles
    ensures error == None <==> !Blank(name) && WeightsOk(raw.profiles[name])
    ensures error.Some? ==> Justified(raw, error.value)
  {
    var trimmed := TrimSpace(name);
    if trimmed == "" {
      return Some(EmptyIdentifier);
    }
    var p := raw.profiles[name];
    var sum := 0.0;
    for k := 0 to 4
      invariant forall j :: 0 <= j < k ==> WeightOk(Weight(p, FIELDS[j]))
      invariant sum == SumOf(p, k)
    {
      var value := Weight(p, FIELDS[k]);
      if !WeightOk(value) {
        BadField(p, k);
      }
      if Below(value, 0.0) {
        return Some(NegativeWeight(name, FIELDS[k]));
      }
      if NotFinite(value) {
        return Some(InvalidWeight(name, FIELDS[k]));
      }
      if Above(value, MAX_WEIGHT) {
        return Some(ExcessiveWeight(name, FIELDS[k]));
      }
      sum := sum + value.r;
    }
    AllFour(p);
    if (if sum < 0.0 then -sum else sum) < EPSILON {
      return Some(AllWeightsZero(name));
    }
    return None;
  }

  lemma BadField(p: ProfileWeights, k: nat)
    requires k < 4 && !WeightOk(Weight(p, FIELDS[k])) && forall j :: 0 <= j < k ==> WeightOk(Weight(p, FIELDS[j]))
    ensures !WeightsOk(p) && FirstBad(p, FIELDS[k])
  {
    assert FIELDS[0] == WeightLoss && FIELDS[1] == WeightPing && FIELDS[2] == WeightLoad && FIELDS[3] == WeightPower;
    assert k > 0 ==> WeightOk(Weight(p, FIELDS[0]));
    assert k > 1 ==> WeightOk(Weight(p, FIELDS[1]));
    assert k > 2 ==> WeightOk(Weight(p, FIELDS[2]));
  }

  /** validateRawConfig: nil exactly for a valid configuration. Go walks the profiles in any order. */
  method ValidateRawConfig(raw: RawMeshConfig) returns (error: Option<ConfigError>)
    ensures error == None <==> ConfigOk(raw)
    ensures error.Some? ==> Justified(raw, error.value)
  {
    var trimmed := TrimSpace(raw.activeProfile);
    if trimmed == "" {
      return Some(EmptyActiveProfile);
    }
    if raw.activeProfile !in raw.profiles {
      return Some(UndefinedActiveProfile);
    }
    var names := raw.profiles.Keys;
    while names != {}
      invariant names <= raw.profiles.Keys
      invariant forall name :: name in raw.profiles && name !in names ==> !Blank(name) && WeightsOk(raw.profiles[name])
      decreases |names|
    {
      var name :| name in names;
      error := ValidateProfile(raw, name);
      if error != None {
        return;
      }
      names := names - {name};
    }
    return None;
  }
}
