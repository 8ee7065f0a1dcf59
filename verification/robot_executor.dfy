/** The robot executor of `executor-bootstrap`: a position and one of four headings,
    turned a quarter at a time, with every operation a no-op until `init`. The
    mutex that guards each call is left out: the model is single-threaded. */
module RobotExecutor {

  /** `int32_t`. */
  newtype Int32 = x: int | -0x8000_0000 <= x < 0x8000_0000

  /** The values a `Heading` holds after normalisation: NORTH, EAST, SOUTH, WEST. */
  type Heading = h: int | 0 <= h < 4

  const North: Heading := 0
  const East: Heading := 1
  const South: Heading := 2
  const West: Heading := 3

  const HeadingModulo: int := 4
  const RightDelta: int := 1
  const LeftDelta: int := HeadingModulo - RightDelta

  /** C++ `a % b` for a positive `b`: the remainder takes the sign of `a`. */
  function CRem(a: int, b: int): (r: int)
    requires b > 0
    ensures -b < r < b
    ensures a >= 0 ==> r == a % b
  {
    if a >= 0 then a % b else -((-a) % b)
  }

  /** `normalizeHeading`: the truncating remainder, lifted by the modulus when it is
      negative, is the mathematical residue of `h` modulo 4. */
  function NormalizeHeading(h: Int32): (r: Heading)
    ensures r == (h as int) % 4
  {
    var n := CRem(h as int, HeadingModulo);
    if n < 0 then
      CRemNegative(h as int);
      n + HeadingModulo
    else n
  }

  lemma CRemNegative(a: int)
    requires a < 0
    ensures CRem(a, 4) < 0 ==> CRem(a, 4) + 4 == a % 4
    ensures CRem(a, 4) >= 0 ==> CRem(a, 4) == a % 4
  {
    var q := (-a) / 4;
    var m := (-a) % 4;
    assert -a == 4 * q + m;
    if m == 0 {
      assert a == 4 * (-q);
    } else {
      assert a == 4 * (-q - 1) + (4 - m);
    }
  }

  /** The executor's fields. */
  datatype State = State(x: Int32, y: Int32, heading: Heading, initialized: bool)

  /** The constructor: the default coordinates and heading, not yet initialised. */
  function Fresh(): State {
    State(0, 0, North, false)
  }

  /** `init`: store the position and the normalised heading, and mark the executor
      initialised, whatever it held before. */
  function Init(s: State, x: Int32, y: Int32, heading: Int32): (r: State)
    ensures r.initialized && r.x == x && r.y == y
    ensures r.heading as int == (heading as int) % 4
  {
    State(x, y, NormalizeHeading(heading), true)
  }

  /** `turnRight`: a quarter turn clockwise once initialised; before that, nothing. */
  function TurnRight(s: State): (r: State)
    ensures r.x == s.x && r.y == s.y && r.initialized == s.initialized
    ensures !s.initialized ==> r == s
  {
    if !s.initialized then s
    else s.(heading := (s.heading + RightDelta) % HeadingModulo)
  }

  /** `turnLeft`: a quarter turn anticlockwise once initialised; before that, nothing. */
  function TurnLeft(s: State): (r: State)
    ensures r.x == s.x && r.y == s.y && r.initialized == s.initialized
    ensures !s.initialized ==> r == s
  {
    if !s.initialized then s
    else s.(heading := (s.heading + LeftDelta) % HeadingModulo)
  }

  /** `getStatus`: the defaults before `init`, the stored values after. */
  function GetStatus(s: State): (r: (Int32, Int32, Heading))
    ensures !s.initialized ==> r == (0, 0, North)
    ensures s.initialized ==> r == (s.x, s.y, s.heading)
  {
    if !s.initialized then (0, 0, North) else (s.x, s.y, s.heading)
  }

  /** A fresh executor reports the origin facing north, and so does one whose stored
      fields were never initialised, whatever they hold. */
  lemma FreshStatus(s: State)
    requires !s.initialized
    ensures GetStatus(Fresh()) == (0, 0, North)
    ensures GetStatus(s) == GetStatus(Fresh())
  {
  }

  /** `init` is reported back, with the heading brought into range. */
  lemma InitStatus(s: State, x: Int32, y: Int32, heading: Int32)
    ensures GetStatus(Init(s, x, y, heading)) == (x, y, (heading as int) % 4)
    ensures 0 <= heading < 4 ==> GetStatus(Init(s, x, y, heading)).2 == heading as int
  {
  }

  /** Turning right then left, or left then right, gives back the same state. */
  lemma TurnsCancel(s: State)
    ensures TurnLeft(TurnRight(s)) == s
    ensures TurnRight(TurnLeft(s)) == s
  {
  }

  /** A left turn is three right turns, and four turns either way are no turn. */
  lemma QuarterTurnGroup(s: State)
    ensures TurnLeft(s) == TurnRight(TurnRight(TurnRight(s)))
    ensures TurnRight(TurnRight(TurnRight(TurnRight(s)))) == s
    ensures TurnLeft(TurnLeft(TurnLeft(TurnLeft(s)))) == s
  {
  }

  /** A sequence of turns, `true` for right and `false` for left. Turning never
      moves the robot and never changes whether it is initialised. */
  function Turns(s: State, rights: seq<bool>): (r: State)
    ensures r.x == s.x && r.y == s.y && r.initialized == s.initialized
    ensures !s.initialized ==> r == s
    decreases |rights|
  {
    if rights == [] then s
    else Turns(if rights[0] then TurnRight(s) else TurnLeft(s), rights[1..])
  }

  /** Right turns minus left turns. */
  function Net(rights: seq<bool>): int {
    if rights == [] then 0 else (if rights[0] then 1 else -1) + Net(rights[1..])
  }

  /** Any sequence of turns lands on the heading given by its net count of right
      turns, modulo 4: only the net count matters, not the order. */
  lemma {:induction false} TurnsNet(s: State, rights: seq<bool>)
    requires s.initialized
    ensures Turns(s, rights).heading == (s.heading + Net(rights)) % 4
    decreases |rights|
  {
    if rights != [] {
      var t := if rights[0] then TurnRight(s) else TurnLeft(s);
      TurnsNet(t, rights[1..]);
      if rights[0] {
        assert t.heading == (s.heading + 1) % 4;
      } else {
        assert t.heading == (s.heading + 3) % 4;
      }
      ModAddShift(s.heading, if rights[0] then 1 else 3, Net(rights[1..]));
      assert (s.heading + 3 + Net(rights[1..])) % 4 == (s.heading - 1 + Net(rights[1..])) % 4;
    }
  }

  lemma ModAddShift(a: int, b: int, c: int)
    ensures ((a + b) % 4 + c) % 4 == (a + b + c) % 4
  {
    var q := (a + b) / 4;
    assert a + b == 4 * q + (a + b) % 4;
    assert (a + b + c) == 4 * q + ((a + b) % 4 + c);
  }

  /** The right-turn and left-turn sequences the tests walk through. */
  lemma TurnExamples()
    ensures var s := Init(Fresh(), 1, 2, North as Int32);
      && GetStatus(TurnRight(s)) == (1, 2, East)
      && GetStatus(TurnRight(TurnRight(s))) == (1, 2, South)
      && GetStatus(TurnRight(TurnRight(TurnRight(s)))) == (1, 2, West)
      && GetStatus(TurnRight(TurnRight(TurnRight(TurnRight(s))))) == (1, 2, North)
    ensures var s := Init(Fresh(), 4, 6, North as Int32);
      && GetStatus(TurnLeft(s)) == (4, 6, West)
      && GetStatus(TurnLeft(TurnLeft(s))) == (4, 6, South)
      && GetStatus(TurnLeft(TurnLeft(TurnLeft(s)))) == (4, 6, East)
      && GetStatus(TurnLeft(TurnLeft(TurnLeft(TurnLeft(s))))) == (4, 6, North)
  {
  }

  /** The executor object: its fields behind the four calls. */
  class Executor {
    var state: State

    constructor ()
      ensures state == Fresh()
    {
      state := Fresh();
    }

    method DoInit(x: Int32, y: Int32, heading: Int32)
      modifies this
      ensures state == Init(old(state), x, y, heading)
    {
      state := Init(state, x, y, heading);
    }

    method DoTurnRight()
      modifies this
      ensures state == TurnRight(old(state))
    {
      state := TurnRight(state);
    }

    method DoTurnLeft()
      modifies this
      ensures state == TurnLeft(old(state))
    {
      state := TurnLeft(state);
    }

    method DoGetStatus() returns (x: Int32, y: Int32, heading: Heading)
      ensures (x, y, heading) == GetStatus(state)
    {
      x, y, heading := GetStatus(state).0, GetStatus(state).1, GetStatus(state).2;
    }
  }
}
