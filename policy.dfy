/** The behaviour policy of the tank: the motion commands the actuator
    receives, the closed actions the control loop takes, and the
    command sequence each action issues. */
module Policy {

  /** A command sent to the actuator. A motion command carries the time the
      policy lets it run (its settle delay) before the next command. */
  datatype Command =
    | Forward(hold: real)
    | Clockwise(hold: real)
    | CounterClockwise(hold: real)
    | Stop

  /** Settle delays and the centring band of the policy. */
  const SearchHold: real := 0.7
  const ForwardHold: real := 1.0
  const RotateHold: real := 10.0
  const CenterBand: real := 20.0

  /** A closed action of the control loop: a scan step, a follow step with
      the horizontal offset of the target face, or the start-up rotation. */
  datatype Action =
    | Search
    | Follow(offset: real)
    | InitialRotate(clockwise: bool)

  /** The three branches of the follow decision. Left and Right are told
      apart by the sign of the offset, although they issue the same command. */
  datatype Steer = Center | Right | Left

  predicate IsMotion(c: Command) {
    !c.Stop?
  }

  function Abs(x: real): real {
    if x < 0.0 then -x else x
  }

  /** Which branch of the follow step an offset takes: Center strictly
      inside the centring band, otherwise Right or Left by the sign. */
  function Steering(diff: real): (s: Steer)
    ensures s == Center <==> -CenterBand < diff < CenterBand
    ensures s == Right <==> diff >= CenterBand
    ensures s == Left <==> diff <= -CenterBand
  {
    if Abs(diff) < CenterBand then Center
    else if diff > 0.0 then Right
    else Left
  }

  function SteerCommands(s: Steer): seq<Command> {
    match s
    case Center => [Forward(ForwardHold), Stop]
    case Right => [Clockwise(SearchHold), Stop]
    case Left => [Clockwise(SearchHold), Stop]
  }

  /** The commands one action issues: a single motion, then Stop. */
  function Commands(a: Action): (r: seq<Command>)
    ensures |r| == 2 && IsMotion(r[0]) && r[1] == Stop
  {
    match a
    case Search => [Clockwise(SearchHold), Stop]
    case Follow(diff) => SteerCommands(Steering(diff))
    case InitialRotate(cw) =>
      if cw then [Clockwise(RotateHold), Stop] else [CounterClockwise(RotateHold), Stop]
  }

  /** The actuator trace a sequence of actions produces. */
  function Expand(acts: seq<Action>): (t: seq<Command>)
    ensures |t| == 2 * |acts|
  {
    if acts == [] then [] else Commands(acts[0]) + Expand(acts[1..])
  }

  /** A trace made of whole actions: every motion command is immediately
      followed by Stop, and nothing else is there. */
  predicate Settled(t: seq<Command>)
    decreases |t|
  {
    t == [] || (|t| >= 2 && IsMotion(t[0]) && t[1] == Stop && Settled(t[2..]))
  }

  // ---------------------------------------------------------------------
  // The follow decision

  /** The follow step moves forward exactly when the offset lies strictly
      inside the centring band; an offset of exactly +20 or -20 rotates. */
  lemma FollowForwardIff(diff: real)
    ensures Commands(Follow(diff))[0].Forward? <==> -CenterBand < diff < CenterBand
    ensures Commands(Follow(diff))[0].Forward? ==> Commands(Follow(diff)) == [Forward(ForwardHold), Stop]
  {
  }

  /** Outside the centring band a follow step is the scan step, whatever the
      sign of the offset: the negative branch never turns counter-clockwise. */
  lemma FollowOffCenterIsSearch(diff: real)
    requires Abs(diff) >= CenterBand
    ensures Steering(diff) == (if diff > 0.0 then Right else Left)
    ensures Commands(Follow(diff)) == Commands(Search)
  {
  }

  /** The follow step does not depend on the sign of the offset and never
      issues a counter-clockwise turn. */
  lemma FollowIgnoresSign(diff: real)
    ensures Commands(Follow(diff)) == Commands(Follow(-diff))
    ensures forall c :: c in Commands(Follow(diff)) ==> !c.CounterClockwise?
  {
  }

  /** The start-up rotation turns the chosen way for the long hold. */
  lemma InitialRotateCommands(cw: bool)
    ensures Commands(InitialRotate(cw))[0] ==
            (if cw then Clockwise(RotateHold) else CounterClockwise(RotateHold))
  {
  }

  // ---------------------------------------------------------------------
  // Traces of actions

  lemma {:induction false} ExpandAppend(a: seq<Action>, b: seq<Action>)
    ensures Expand(a + b) == Expand(a) + Expand(b)
  {
    if a == [] {
      assert a + b == b;
    } else {
      assert (a + b)[1..] == a[1..] + b;
      ExpandAppend(a[1..], b);
    }
  }

  /** Appending one action appends its commands. */
  lemma ExpandSnoc(a: seq<Action>, x: Action)
    ensures Expand(a + [x]) == Expand(a) + Commands(x)
  {
    ExpandAppend(a, [x]);
    assert Expand([x]) == Commands(x) + Expand([]);
  }

  /** Action i of a sequence occupies commands 2i and 2i+1 of its trace. */
  lemma {:induction false} ExpandAt(acts: seq<Action>, i: nat)
    requires i < |acts|
    ensures Expand(acts)[2 * i] == Commands(acts[i])[0]
    ensures Expand(acts)[2 * i + 1] == Stop
  {
    if i > 0 {
      ExpandAt(acts[1..], i - 1);
    }
  }

  /** The trace of any sequence of actions is settled. */
  lemma {:induction false} ExpandSettled(acts: seq<Action>)
    ensures Settled(Expand(acts))
  {
    if acts != [] {
      var t := Expand(acts);
      assert t[2..] == Expand(acts[1..]);
      ExpandSettled(acts[1..]);
    }
  }

  /** A settled trace is empty or ends with Stop: no motion is in progress. */
  lemma {:induction false} SettledEndsStopped(t: seq<Command>)
    requires Settled(t)
    ensures t == [] || t[|t| - 1] == Stop
    ensures |t| % 2 == 0
  {
    if t != [] {
      SettledEndsStopped(t[2..]);
    }
  }
}
