/** The action set of the Q-learning agent (QLearnAgent.java): twelve constant
    button arrays, listed in a fixed order. */
module Actions {

  /** One controller input: the engine's boolean button array, by button name. */
  datatype Buttons = Buttons(left: bool, right: bool, down: bool, jump: bool, speed: bool)

  /** The pattern of a freshly allocated button array: nothing pressed. */
  const NoButtons := Buttons(false, false, false, false, false)

  /** The agent's named constant arrays, declared in the order of its action list. */
  datatype ActionName =
    | Stay | Jump | Speed | Left | LeftSpeed | LeftJump | LeftJumpSpeed
    | JumpSpeed | Right | RightSpeed | RightJump | RightJumpSpeed

  /** An action as the agent handles it: a reference to a button array.
      `Field(n)` is the agent's constant array `n`; `Fresh` is the all-false
      array that the greedy search allocates as its initial best. Two
      references denote the same Java object exactly when they are equal here,
      so `Fresh != Field(Stay)` although both press nothing. */
  datatype ActionRef = Field(name: ActionName) | Fresh

  /** The buttons each constant array has set after the agent is initialised. */
  function PatternOf(n: ActionName): Buttons
  {
    match n
    case Stay => NoButtons
    case Jump => NoButtons.(jump := true)
    case Speed => NoButtons.(speed := true)
    case JumpSpeed => NoButtons.(jump := true, speed := true)
    case Right => NoButtons.(right := true)
    case RightJump => NoButtons.(right := true, jump := true)
    case RightSpeed => NoButtons.(right := true, speed := true)
    case RightJumpSpeed => NoButtons.(right := true, jump := true, speed := true)
    case Left => NoButtons.(left := true)
    case LeftJump => NoButtons.(left := true, jump := true)
    case LeftSpeed => NoButtons.(left := true, speed := true)
    case LeftJumpSpeed => NoButtons.(left := true, jump := true, speed := true)
  }

  /** The buttons an action reference presses. */
  function Pattern(a: ActionRef): Buttons
  {
    match a
    case Field(n) => PatternOf(n)
    case Fresh => NoButtons
  }

  /** A pattern the agent may ever send: never down, never left and right together. */
  predicate Permitted(b: Buttons)
  {
    !b.down && !(b.left && b.right)
  }

  /** The list of all actions, in the order the agent adds them. */
  function AllActions(): (r: seq<ActionRef>)
    ensures |r| == 12
    ensures Fresh !in r
  {
    [Field(Stay), Field(Jump), Field(Speed), Field(Left), Field(LeftSpeed),
     Field(LeftJump), Field(LeftJumpSpeed), Field(JumpSpeed), Field(Right),
     Field(RightSpeed), Field(RightJump), Field(RightJumpSpeed)]
  }

  /** The actions valid in the current situation: a copy of the full list. */
  function ValidActions(): (r: seq<ActionRef>)
    ensures r == AllActions()
  {
    AllActions()
  }

  /** The twelve listed actions are named constants with pairwise distinct
      patterns, each permitted; the first, STAY, presses what a fresh array
      presses. Positions 3 to 6 go left, 8 to 11 go right, and the jump and
      speed buttons alternate as `getAllActions` lists them. */
  lemma ActionPatterns()
    ensures forall i :: 0 <= i < 12 ==> AllActions()[i].Field? && Permitted(Pattern(AllActions()[i]))
    ensures forall i, j :: 0 <= i < j < 12 ==> Pattern(AllActions()[i]) != Pattern(AllActions()[j])
    ensures Pattern(AllActions()[0]) == Pattern(Fresh)
    ensures forall i :: 0 <= i < 12 ==> (Pattern(AllActions()[i]).left <==> 3 <= i <= 6)
    ensures forall i :: 0 <= i < 12 ==> (Pattern(AllActions()[i]).right <==> 8 <= i)
    ensures forall i :: 0 <= i < 12 ==> (Pattern(AllActions()[i]).jump <==> i in {1, 5, 6, 7, 10, 11})
    ensures forall i :: 0 <= i < 12 ==> (Pattern(AllActions()[i]).speed <==> i in {2, 4, 6, 7, 9, 11})
  {
  }

  /** The twelve patterns are exactly the permitted button combinations:
      three horizontal choices times jump or not times speed or not. */
  lemma EveryPermittedPatternListed(b: Buttons)
    ensures Permitted(b) <==> exists i :: 0 <= i < 12 && Pattern(AllActions()[i]) == b
  {
    var acts := AllActions();
    if Permitted(b) {
      var h := if b.left then 3 else if b.right then 8 else 0;
      var i :=
        if h == 0 then (if b.jump && b.speed then 7 else if b.jump then 1 else if b.speed then 2 else 0)
        else if h == 3 then (if b.jump && b.speed then 6 else if b.jump then 5 else if b.speed then 4 else 3)
        else (if b.jump && b.speed then 11 else if b.jump then 10 else if b.speed then 9 else 8);
      assert Pattern(acts[i]) == b;
    }
  }
}
