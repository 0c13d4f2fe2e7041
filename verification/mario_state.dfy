/** The feature and reward extractor of MarioState.java. The class's static
    counters are an explicit `Statics` record that every call takes and
    returns; the engine's observation is an `Observation` record. */
module MarioStates {
  import opened Results

  /** Side of the square window probed around Mario. */
  const ViewDim: int := 6
  /** Status entries after the two windows. */
  const MiscDims: int := 4
  /** Entries of one window. */
  const Window: int := ViewDim * ViewDim
  /** Length of the representation: two windows and the status entries. */
  const AmountOfInput: int := 2 * Window + MiscDims
  const HalfView: int := ViewDim / 2
  /** Mario's cell in the engine's observation grids (Environment.HalfObsWidth
      and HalfObsHeight: half of the engine's 22-cell observation window). */
  const HalfObsWidth: int := 11
  const HalfObsHeight: int := 11
  /** Field initialiser of both x positions. */
  const InitialXPos: real := 32.0
  /** Below this height (the y coordinate grows downwards) Mario is falling to his death. */
  const FallHeight: real := 225.0

  const RewardDistance: real := 1.0
  const RewardKilledStomp: real := 0.0
  const RewardKilledFire: real := 1.0
  const RewardKilledShell: real := 1.0
  const RewardCollided: real := -50.0
  const RewardFall: real := -1000.0
  /** Subtracted from every non-falling reward. */
  const LivingCost: real := 0.5

  /** What the engine reports in one step. */
  datatype Observation = Observation(
    scene: seq<seq<int>>,
    enemies: seq<seq<int>>,
    marioMode: int,
    mayJump: bool,
    onGround: bool,
    canShoot: bool,
    x: real,
    y: real,
    killsByStomp: int,
    killsByFire: int,
    killsByShell: int)

  /** The class's static fields: running kill totals, the kills of the last
      step, the mode bookkeeping behind `collided`, and the reward total. */
  datatype Statics = Statics(
    totalKilledByStomp: int,
    totalKilledByFire: int,
    totalKilledByShell: int,
    killedByStomp: int,
    killedByFire: int,
    killedByShell: int,
    marioMode: int,
    lastMarioMode: int,
    collided: int,
    rewardSoFar: real)

  /** The static fields' initial values. */
  const InitialStatics := Statics(0, 0, 0, 0, 0, 0, 2, 2, 0, 0.0)

  /** One state: its feature vector, the x positions and the falling flag. */
  datatype MarioState = MarioState(representation: seq<real>, xPos: real, oldXPos: real, dieCheck: bool)

  function Zeros(n: nat): (r: seq<real>)
    ensures |r| == n && forall i :: 0 <= i < n ==> r[i] == 0.0
  {
    seq(n, i => 0.0)
  }

  function Flag(b: bool): real
  {
    if b then 1.0 else 0.0
  }

  /** The grid has every cell the window probes. */
  predicate Covers(grid: seq<seq<int>>)
  {
    && HalfObsWidth + HalfView <= |grid|
    && forall r :: HalfObsWidth - HalfView <= r < HalfObsWidth + HalfView ==> HalfObsHeight + HalfView <= |grid[r]|
  }

  /** probe: 1 when the grid cell at offset (x, y) from Mario is occupied, else 0. */
  function Probe(x: int, y: int, grid: seq<seq<int>>): (r: real)
    requires 0 <= x + HalfObsWidth < |grid| && 0 <= y + HalfObsHeight < |grid[x + HalfObsWidth]|
    ensures r == 0.0 || r == 1.0
    ensures r == 1.0 <==> grid[x + HalfObsWidth][y + HalfObsHeight] != 0
  {
    if grid[x + HalfObsWidth][y + HalfObsHeight] != 0 then 1.0 else 0.0
  }

  /** Position of the probe at offset (i, j) in a window: row-major over i, then j. */
  function Cell(i: int, j: int): int
  {
    (i + HalfView) * ViewDim + (j + HalfView)
  }

  predicate InView(i: int, j: int)
  {
    -HalfView <= i < HalfView && -HalfView <= j < HalfView
  }

  lemma CellInverse(i: int, j: int)
    requires InView(i, j)
    ensures 0 <= Cell(i, j) < Window
    ensures Cell(i, j) / ViewDim - HalfView == i && Cell(i, j) % ViewDim - HalfView == j
  {
  }

  /** The probes of one grid, in the order of `updateRepresentation`'s nested loops. */
  function WindowProbes(grid: seq<seq<int>>): (r: seq<real>)
    requires Covers(grid)
    ensures |r| == Window
    ensures forall i, j :: InView(i, j) ==> r[Cell(i, j)] == Probe(i, j, grid)
  {
    var r := seq(Window, k requires 0 <= k < Window => Probe(k / ViewDim - HalfView, k % ViewDim - HalfView, grid));
    forall i, j | InView(i, j)
      ensures r[Cell(i, j)] == Probe(i, j, grid)
    {
      CellInverse(i, j);
    }
    r
  }

  /** The representation updateRepresentation writes: the scene window, the
      enemy window, then mode, may-jump, on-ground and can-shoot. */
  function Representation(obs: Observation): (r: seq<real>)
    requires Covers(obs.scene) && Covers(obs.enemies)
    ensures |r| == AmountOfInput
    ensures forall i, j :: InView(i, j) ==> r[Cell(i, j)] == Probe(i, j, obs.scene)
    ensures forall i, j :: InView(i, j) ==> r[Window + Cell(i, j)] == Probe(i, j, obs.enemies)
    ensures r[AmountOfInput - 4] == obs.marioMode as real
    ensures r[AmountOfInput - 3] == Flag(obs.mayJump)
    ensures r[AmountOfInput - 2] == Flag(obs.onGround)
    ensures r[AmountOfInput - 1] == Flag(obs.canShoot)
  {
    var scene := WindowProbes(obs.scene);
    var enemies := WindowProbes(obs.enemies);
    var r := scene + enemies + [obs.marioMode as real, Flag(obs.mayJump), Flag(obs.onGround), Flag(obs.canShoot)];
    forall i, j | InView(i, j)
      ensures r[Cell(i, j)] == Probe(i, j, obs.scene)
      ensures r[Window + Cell(i, j)] == Probe(i, j, obs.enemies)
    {
      CellInverse(i, j);
      assert r[Cell(i, j)] == scene[Cell(i, j)];
      assert r[Window + Cell(i, j)] == enemies[Cell(i, j)];
    }
    r
  }

  /** Every entry the two windows contribute is 0 or 1. */
  lemma WindowEntriesBinary(obs: Observation, k: int)
    requires Covers(obs.scene) && Covers(obs.enemies)
    requires 0 <= k < 2 * Window
    ensures Representation(obs)[k] == 0.0 || Representation(obs)[k] == 1.0
  {
    var w := k % Window;
    var i := w / ViewDim - HalfView;
    var j := w % ViewDim - HalfView;
    assert InView(i, j) && Cell(i, j) == w;
    if k < Window {
      assert k == Cell(i, j);
    } else {
      assert k == Window + Cell(i, j);
    }
  }

  function Min(a: int, b: int): int
  {
    if a <= b then a else b
  }

  /** The static bookkeeping of updateRepresentation: each kill count of the
      step is the engine's counter minus the running total, the totals take
      the counters, and `collided` is set exactly when the mode falls below
      `lastMarioMode`, which then follows it down (and never up). */
  function UpdateStatics(st: Statics, obs: Observation): (r: Statics)
    ensures r.killedByStomp == obs.killsByStomp - st.totalKilledByStomp
    ensures r.killedByFire == obs.killsByFire - st.totalKilledByFire
    ensures r.killedByShell == obs.killsByShell - st.totalKilledByShell
    ensures r.totalKilledByStomp == obs.killsByStomp
    ensures r.totalKilledByFire == obs.killsByFire
    ensures r.totalKilledByShell == obs.killsByShell
    ensures r.marioMode == obs.marioMode
    ensures r.collided == 1 <==> obs.marioMode < st.lastMarioMode
    ensures r.collided == 0 || r.collided == 1
    ensures r.lastMarioMode == Min(st.lastMarioMode, obs.marioMode)
    ensures r.rewardSoFar == st.rewardSoFar
  {
    var r := st.(
      killedByFire := obs.killsByFire - st.totalKilledByFire,
      killedByStomp := obs.killsByStomp - st.totalKilledByStomp,
      killedByShell := obs.killsByShell - st.totalKilledByShell,
      totalKilledByFire := obs.killsByFire,
      totalKilledByStomp := obs.killsByStomp,
      totalKilledByShell := obs.killsByShell,
      marioMode := obs.marioMode);
    if r.marioMode < r.lastMarioMode then
      r.(collided := 1, lastMarioMode := r.marioMode)
    else
      r.(collided := 0)
  }

  /** updateRepresentation on a state: new features, the previous x as the
      old x, the engine's x, the falling test, and the static bookkeeping. */
  function UpdateRepresentation(ms: MarioState, obs: Observation, st: Statics): (MarioState, Statics)
    requires Covers(obs.scene) && Covers(obs.enemies)
  {
    (MarioState(Representation(obs), obs.x, ms.xPos, obs.y > FallHeight), UpdateStatics(st, obs))
  }

  /** The constructor from an environment (`None` for a null one) and an x
      position: after the optional update, `oldXPos` is overwritten by `xPosIn`. */
  function FromEnvironment(env: Option<Observation>, xPosIn: real, st: Statics): (r: (MarioState, Statics))
    requires env.Some? ==> Covers(env.value.scene) && Covers(env.value.enemies)
    ensures r.0.oldXPos == xPosIn
    ensures env.Some? ==>
      && r.0.representation == Representation(env.value)
      && r.0.xPos == env.value.x
      && r.0.dieCheck == (env.value.y > FallHeight)
      && r.1 == UpdateStatics(st, env.value)
    ensures env.None? ==>
      && r.0.representation == Zeros(AmountOfInput)
      && r.0.xPos == InitialXPos
      && !r.0.dieCheck
      && r.1 == st
  {
    var blank := MarioState(Zeros(AmountOfInput), InitialXPos, InitialXPos, false);
    var updated := if env.Some? then UpdateRepresentation(blank, env.value, st) else (blank, st);
    (updated.0.(oldXPos := xPosIn), updated.1)
  }

  /** The constructor from a representation, used by clone: copies the
      entries and the old x; the x position keeps its field initialiser. */
  function FromRepresentation(reprIn: seq<real>, oldXPosIn: real): (r: MarioState)
    ensures |r.representation| == |reprIn|
    ensures forall i :: 0 <= i < |reprIn| ==> r.representation[i] == reprIn[i]
    ensures r.oldXPos == oldXPosIn && r.xPos == InitialXPos && !r.dieCheck
  {
    MarioState(reprIn, InitialXPos, oldXPosIn, false)
  }

  /** equals: `None` is Java's null; two states are equal when their
      representations agree entry by entry (positions are not compared). */
  function Equals(ms: MarioState, other: Option<MarioState>): (b: bool)
    ensures b <==>
      && other.Some?
      && |ms.representation| == |other.value.representation|
      && forall i :: 0 <= i < |ms.representation| ==> ms.representation[i] == other.value.representation[i]
  {
    other.Some? && ms.representation == other.value.representation
  }

  /** clone: a state with the same features and old x, equal to the original. */
  function Clone(ms: MarioState): (r: MarioState)
    ensures Equals(ms, Some(r)) && Equals(r, Some(ms))
    ensures r.oldXPos == ms.oldXPos
    ensures r.xPos == InitialXPos && !r.dieCheck
  {
    FromRepresentation(ms.representation, ms.oldXPos)
  }

  /** equals is an equivalence on states. */
  lemma EqualsIsEquivalence(a: MarioState, b: MarioState, c: MarioState)
    ensures Equals(a, Some(a))
    ensures Equals(a, Some(b)) ==> Equals(b, Some(a))
    ensures Equals(a, Some(b)) && Equals(b, Some(c)) ==> Equals(a, Some(c))
    ensures !Equals(a, None)
  {
  }

  /** reset: every entry becomes 0, the length and the positions stay. */
  function Reset(ms: MarioState): (r: MarioState)
    ensures |r.representation| == |ms.representation|
    ensures forall i :: 0 <= i < |r.representation| ==> r.representation[i] == 0.0
    ensures r.xPos == ms.xPos && r.oldXPos == ms.oldXPos && r.dieCheck == ms.dieCheck
  {
    ms.(representation := Zeros(|ms.representation|))
  }

  /** resetStatic: no kills, no collision, no reward, and both modes `mode`. */
  function ResetStatic(mode: int): (r: Statics)
    ensures r.totalKilledByStomp == 0 && r.totalKilledByFire == 0 && r.totalKilledByShell == 0
    ensures r.killedByStomp == 0 && r.killedByFire == 0 && r.killedByShell == 0
    ensures r.marioMode == mode && r.lastMarioMode == mode
    ensures r.collided == 0 && r.rewardSoFar == 0.0
  {
    Statics(0, 0, 0, 0, 0, 0, mode, mode, 0, 0.0)
  }

  /** The first step after resetStatic(mode): the kills of the step are the
      engine's counters and a collision is reported iff the mode is below `mode`. */
  lemma FirstStepAfterReset(mode: int, obs: Observation)
    ensures var st := UpdateStatics(ResetStatic(mode), obs);
      && st.killedByStomp == obs.killsByStomp
      && st.killedByFire == obs.killsByFire
      && st.killedByShell == obs.killsByShell
      && (st.collided == 1 <==> obs.marioMode < mode)
  {
  }

  /** getReward: -1000 when falling, otherwise the distance covered plus one
      per fire or shell kill (stomps earn nothing), minus 50 on a collision,
      minus the living cost. */
  function GetReward(ms: MarioState, st: Statics): (r: real)
    ensures ms.dieCheck ==> r == RewardFall
    ensures !ms.dieCheck ==>
      r == (ms.xPos - ms.oldXPos) + (st.killedByFire + st.killedByShell) as real - 50.0 * st.collided as real - LivingCost
  {
    if ms.dieCheck then RewardFall
    else
      var distance := ms.xPos - ms.oldXPos;
      distance * RewardDistance + st.killedByStomp as real * RewardKilledStomp
        + st.killedByFire as real * RewardKilledFire + st.killedByShell as real * RewardKilledShell
        + st.collided as real * RewardCollided - LivingCost
  }

  /** A step that kills nothing and collides with nothing is worth the
      distance covered minus the living cost; a collision costs 50 more. */
  lemma PlainStepReward(ms: MarioState, st: Statics)
    requires !ms.dieCheck
    requires st.killedByStomp == 0 && st.killedByFire == 0 && st.killedByShell == 0
    ensures st.collided == 0 ==> GetReward(ms, st) == ms.xPos - ms.oldXPos - LivingCost
    ensures st.collided == 1 ==> GetReward(ms, st) == ms.xPos - ms.oldXPos - LivingCost - 50.0
  {
  }

  /** One step end to end: the reward of the state built from an observation
      and the previous x position. Falling costs 1000; otherwise the reward
      is the x progress since `xPosIn`, plus the fire and shell kills since
      the previous totals, minus 50 when the mode dropped below the lowest
      mode so far, minus the living cost. */
  lemma StepReward(obs: Observation, xPosIn: real, st: Statics)
    requires Covers(obs.scene) && Covers(obs.enemies)
    ensures var r := FromEnvironment(Some(obs), xPosIn, st);
      && (obs.y > FallHeight ==> GetReward(r.0, r.1) == RewardFall)
      && (obs.y <= FallHeight ==>
            GetReward(r.0, r.1)
            == (obs.x - xPosIn)
               + ((obs.killsByFire - st.totalKilledByFire) + (obs.killsByShell - st.totalKilledByShell)) as real
               - (if obs.marioMode < st.lastMarioMode then 50.0 else 0.0)
               - LivingCost)
  {
  }

  /** The statics after a run of observations, oldest first. */
  function Run(st: Statics, obs: seq<Observation>): Statics
    decreases |obs|
  {
    if |obs| == 0 then st else UpdateStatics(Run(st, obs[..|obs| - 1]), obs[|obs| - 1])
  }

  /** The lowest mode among `m` and the modes of the observations. */
  function LowestMode(m: int, obs: seq<Observation>): int
    decreases |obs|
  {
    if |obs| == 0 then m else Min(LowestMode(m, obs[..|obs| - 1]), obs[|obs| - 1].marioMode)
  }

  /** The fire kills the run's steps report, added up. */
  function FireKills(st: Statics, obs: seq<Observation>): int
    decreases |obs|
  {
    if |obs| == 0 then 0 else FireKills(st, obs[..|obs| - 1]) + Run(st, obs).killedByFire
  }

  /** The stomp kills the run's steps report, added up. */
  function StompKills(st: Statics, obs: seq<Observation>): int
    decreases |obs|
  {
    if |obs| == 0 then 0 else StompKills(st, obs[..|obs| - 1]) + Run(st, obs).killedByStomp
  }

  /** The shell kills the run's steps report, added up. */
  function ShellKills(st: Statics, obs: seq<Observation>): int
    decreases |obs|
  {
    if |obs| == 0 then 0 else ShellKills(st, obs[..|obs| - 1]) + Run(st, obs).killedByShell
  }

  /** Over a run, `lastMarioMode` is the lowest mode seen so far, so a step is
      a collision exactly when it reaches a new low: losing a mode that was
      gained during the run is not a collision. For each kind of kill, the
      per-step kills add up to the growth of the engine's counter. */
  lemma {:induction false} RunInvariants(st: Statics, obs: seq<Observation>)
    requires |obs| > 0
    ensures Run(st, obs).lastMarioMode == LowestMode(st.lastMarioMode, obs)
    ensures Run(st, obs).collided == 1 <==> obs[|obs| - 1].marioMode < LowestMode(st.lastMarioMode, obs[..|obs| - 1])
    ensures StompKills(st, obs) == obs[|obs| - 1].killsByStomp - st.totalKilledByStomp
    ensures FireKills(st, obs) == obs[|obs| - 1].killsByFire - st.totalKilledByFire
    ensures ShellKills(st, obs) == obs[|obs| - 1].killsByShell - st.totalKilledByShell
    decreases |obs|
  {
    var prefix := obs[..|obs| - 1];
    if |prefix| > 0 {
      RunInvariants(st, prefix);
      assert prefix[..|prefix| - 1] == obs[..|obs| - 2];
    }
  }

  /** From the field initialisers (mode 2), a first step in a smaller mode is
      a collision, and its kills are the engine's counters. */
  lemma FirstStepFromInitialStatics(obs: Observation)
    ensures UpdateStatics(InitialStatics, obs).collided == 1 <==> obs.marioMode < 2
    ensures UpdateStatics(InitialStatics, obs).killedByStomp == obs.killsByStomp
    ensures UpdateStatics(InitialStatics, obs).killedByFire == obs.killsByFire
    ensures UpdateStatics(InitialStatics, obs).killedByShell == obs.killsByShell
  {
  }

  /** A power-up followed by a hit back to the starting mode is not reported
      as a collision. */
  lemma PowerUpThenHitIsNoCollision(low: Observation, high: Observation)
    requires low.marioMode == 0 && high.marioMode == 1
    ensures Run(ResetStatic(0), [high, low]).collided == 0
  {
    var st := ResetStatic(0);
    assert [high, low][..1] == [high];
    assert [high][..0] == [];
    assert Run(st, []) == st;
    var mid := Run(st, [high]);
    assert mid == UpdateStatics(st, high);
    assert mid.lastMarioMode == 0;
    assert Run(st, [high, low]) == UpdateStatics(mid, low);
  }
}
