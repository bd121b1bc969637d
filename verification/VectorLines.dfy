/** The geometry commands of line strings, against the decoder of section 4.3 of the Mapbox Vector
    Tile Specification 2.1. */
module VectorLines {
  import opened Wrappers
  import opened Powers
  import opened Seqs
  import opened Protobuf

  datatype Point = Point(x: int, y: int)

  type Part = seq<Point>

  // ----- the encoder

  /** The command before point i of a part: MoveTo before the first, LineTo for all others before the second. */
  function Command(part: Part, i: nat): seq<nat> {
    if i == 0 then [9] else if i == 1 && |part| > 0 then [BitOr(2, ShiftLeft(|part| - 1, 3))] else []
  }

  function Delta(from: Point, to: Point): seq<nat> {
    [Zigzag(to.x - from.x), Zigzag(to.y - from.y)]
  }

  /** The commands of the first n points of a part, for a cursor before it. */
  function PartCommands(part: Part, n: nat, at: Point): seq<nat>
    requires n <= |part|
  {
    if n == 0 then [] else
      PartCommands(part, n - 1, at) + (Command(part, n - 1) + Delta(Cursor(part, n - 1, at), part[n - 1]))
  }

  /** The cursor after the first n points of a part. */
  function Cursor(part: Part, n: nat, at: Point): Point {
    if 0 < n <= |part| then part[n - 1] else at
  }

  function LineCommands(parts: seq<Part>): seq<nat> {
    if parts == [] then [] else
      var n := |parts| - 1;
      LineCommands(parts[..n]) + PartCommands(parts[n], |parts[n]|, End(parts[..n]))
  }

  /** The cursor after some parts. */
  function End(parts: seq<Part>): Point {
    if parts == [] then Point(0, 0) else
      var n := |parts| - 1;
      Cursor(parts[n], |parts[n]|, End(parts[..n]))
  }

  /** The source's loop over parts and points. */
  method Line(parts: seq<Part>) returns (commands: seq<nat>)
    ensures commands == LineCommands(parts)
  {
    hide Command, Delta, Cursor;
    commands := [];
    var at := Point(0, 0);
    for k := 0 to |parts|
      invariant commands == LineCommands(parts[..k]) && at == End(parts[..k])
    {
      ghost var before, start := commands, at;
      var part := parts[k];
      Nothing(before, part, start);
      for i := 0 to |part|
        invariant commands == before + PartCommands(part, i, start) && at == Cursor(part, i, start)
      {
        Associated(before, PartCommands(part, i, start), Command(part, i) + Delta(at, part[i]));
        commands := Push(commands, part, i, at);
        at := part[i];
        CursorStep(part, i, start);
      }
      Snoc(parts, k + 1);
      TakeTake(parts, k, k + 1);
    }
    Whole(parts);
  }

  lemma Nothing(before: seq<nat>, part: Part, at: Point)
    ensures before + PartCommands(part, 0, at) == before && Cursor(part, 0, at) == at
  {
  }

  lemma CursorStep(part: Part, i: nat, at: Point)
    requires i < |part|
    ensures Cursor(part, i + 1, at) == part[i]
  {
  }

  /** The body of the inner loop. */
  method Push(before: seq<nat>, part: Part, i: nat, at: Point) returns (commands: seq<nat>)
    requires i < |part|
    ensures commands == before + (Command(part, i) + Delta(at, part[i]))
  {
    commands := before;
    if i < 2 { commands := commands + [if i == 0 then 9 else BitOr(2, ShiftLeft(|part| - 1, 3))]; }
    commands := commands + [Zigzag(part[i].x - at.x), Zigzag(part[i].y - at.y)];
    hide BitOr, ShiftLeft, Zigzag;
  }

  // ----- the decoder of the specification

  /** A cursor, the parts so far and the parameter pairs that the last command still takes. */
  datatype State = State(at: Point, parts: seq<Part>, left: nat, drawing: bool)

  /** A move to a point: it extends the last part or starts one. */
  function Moved(s: State, to: Point): State {
    var parts := if s.drawing && s.parts != []
      then s.parts[..|s.parts| - 1] + [s.parts[|s.parts| - 1] + [to]] else s.parts + [[to]];
    State(to, parts, if s.left == 0 then 0 else s.left - 1, s.drawing)
  }

  function Target(from: Point, dx: nat, dy: nat): Point {
    Point(from.x + Unzigzag(dx), from.y + Unzigzag(dy))
  }

  /** A command integer holds the command in its low three bits and the count above them. A MoveTo
      starts a part and a LineTo extends the last one; no other command is part of a line. */
  function Decode(commands: seq<nat>, s: State): Option<seq<Part>> {
    if s.left > 0 then
      if |commands| < 2 then None else Decode(commands[2..], Moved(s, Target(s.at, commands[0], commands[1])))
    else if commands == [] then Some(s.parts)
    else if commands[0] % 8 == 1 then Decode(commands[1..], State(s.at, s.parts, commands[0] / 8, false))
    else if commands[0] % 8 == 2 && s.parts != [] then
      Decode(commands[1..], State(s.at, s.parts, commands[0] / 8, true))
    else None
  }

  /** Decoding after some commands gives the state s. */
  ghost predicate Reaches(commands: seq<nat>, from: State, to: State) {
    forall rest: seq<nat> :: Decode(commands + rest, from) == Decode(rest, to)
  }

  lemma Chained(a: seq<nat>, b: seq<nat>, from: State, via: State, to: State)
    requires Reaches(a, from, via) && Reaches(b, via, to)
    ensures Reaches(a + b, from, to)
  {
    hide Decode;
    forall rest: seq<nat>
      ensures Decode(a + b + rest, from) == Decode(rest, to)
    {
      Associated(a, b, rest);
    }
  }

  /** Between two commands the last command is of no effect. */
  lemma Idle(at: Point, parts: seq<Part>, drawing: bool)
    ensures Reaches([], State(at, parts, 0, drawing), State(at, parts, 0, false))
  {
    forall rest: seq<nat>
      ensures Decode([] + rest, State(at, parts, 0, drawing)) == Decode(rest, State(at, parts, 0, false))
    {
      assert [] + rest == rest;
    }
  }

  lemma DeltaReaches(s: State, to: Point)
    requires s.left > 0
    ensures Reaches(Delta(s.at, to), s, Moved(s, to))
  {
    DeltaTarget(s.at, to);
    hide Moved, Target, Zigzag;
    var dx, dy := Zigzag(to.x - s.at.x), Zigzag(to.y - s.at.y);
    forall rest: seq<nat>
      ensures Decode([dx, dy] + rest, s) == Decode(rest, Moved(s, to))
    {
      assert ([dx, dy] + rest)[2..] == rest;
    }
  }

  lemma DeltaTarget(from: Point, to: Point)
    ensures Target(from, Zigzag(to.x - from.x), Zigzag(to.y - from.y)) == to
  {
    hide Zigzag, Unzigzag;
    ZigzagInverts(to.x - from.x, 0);
    ZigzagInverts(to.y - from.y, 0);
  }

  lemma CommandReaches(s: State, command: nat)
    requires s.left == 0 && (command % 8 == 1 || (command % 8 == 2 && s.parts != []))
    ensures Reaches([command], s, State(s.at, s.parts, command / 8, command % 8 == 2))
  {
    var t := State(s.at, s.parts, command / 8, command % 8 == 2);
    forall rest: seq<nat>
      ensures Decode([command] + rest, s) == Decode(rest, t)
    {
      assert ([command] + rest)[1..] == rest;
    }
  }

  // ----- the round trip

  function Filled(parts: seq<Part>): seq<Part> {
    if parts == [] then [] else
      var n := |parts| - 1;
      Filled(parts[..n]) + if parts[n] == [] then [] else [parts[n]]
  }

  /** The decoder after the first n points of a part. */
  function Within(part: Part, n: nat, at: Point, parts: seq<Part>): State
    requires n <= |part|
  {
    if n == 0 then State(at, parts, 0, false)
    else State(part[n - 1], parts + [part[..n]], if n == 1 then 0 else |part| - n, n > 1)
  }

  lemma {:induction false} PartReaches(part: Part, n: nat, at: Point, parts: seq<Part>)
    requires n <= |part|
    ensures Reaches(PartCommands(part, n, at), State(at, parts, 0, false), Within(part, n, at, parts))
  {
    hide Reaches, PartCommands, Within, Command, Delta, Cursor;
    if n == 0 {
      NoneReaches(part, at, parts);
    } else {
      PartReaches(part, n - 1, at, parts);
      PointReaches(part, n - 1, at, parts);
      var idle, tail := State(at, parts, 0, false), Command(part, n - 1) + Delta(Cursor(part, n - 1, at), part[n - 1]);
      Chained(PartCommands(part, n - 1, at), tail, idle, Within(part, n - 1, at, parts), Within(part, n, at, parts));
      PartStep(part, n, at);
    }
  }

  lemma NoneReaches(part: Part, at: Point, parts: seq<Part>)
    ensures Reaches(PartCommands(part, 0, at), State(at, parts, 0, false), Within(part, 0, at, parts))
  {
    hide Reaches;
    Idle(at, parts, false);
  }

  lemma PartStep(part: Part, n: nat, at: Point)
    requires 0 < n <= |part|
    ensures PartCommands(part, n, at) ==
      PartCommands(part, n - 1, at) + (Command(part, n - 1) + Delta(Cursor(part, n - 1, at), part[n - 1]))
  {
  }

  /** The decoder after the command before point i. */
  function Ready(part: Part, i: nat, s: State): State {
    if i == 0 then State(s.at, s.parts, 1, false)
    else if i == 1 && |part| > 0 then State(s.at, s.parts, |part| - 1, true) else s
  }

  /** The command and the parameters of one point. */
  lemma PointReaches(part: Part, i: nat, at: Point, parts: seq<Part>)
    requires i < |part|
    ensures Reaches(Command(part, i) + Delta(Cursor(part, i, at), part[i]),
                    Within(part, i, at, parts), Within(part, i + 1, at, parts))
  {
    var s := Within(part, i, at, parts);
    var ready := Ready(part, i, s);
    CommandStep(part, i, s);
    PointStep(part, i, at, parts);
    DeltaReaches(ready, part[i]);
    hide Reaches, Delta, Command, Moved;
    Chained(Command(part, i), Delta(s.at, part[i]), s, ready, Within(part, i + 1, at, parts));
  }

  lemma CommandStep(part: Part, i: nat, s: State)
    requires i < |part| && (i < 2 ==> s.left == 0) && (i > 0 ==> s.parts != [])
    ensures Reaches(Command(part, i), s, Ready(part, i, s))
  {
    hide BitOr, ShiftLeft, Reaches;
    if i == 0 {
      CommandReaches(s, 9);
    } else if i == 1 {
      KeyBits(|part| - 1);
      CommandReaches(s, 8 * (|part| - 1) + 2);
    } else {
      Stays(s);
    }
  }

  lemma Stays(s: State)
    ensures Reaches([], s, s)
  {
    assert forall rest: seq<nat> :: [] + rest == rest;
  }

  lemma PointStep(part: Part, i: nat, at: Point, parts: seq<Part>)
    requires i < |part|
    ensures var s := Within(part, i, at, parts);
      && Ready(part, i, s).left > 0 && s.at == Cursor(part, i, at)
      && Moved(Ready(part, i, s), part[i]) == Within(part, i + 1, at, parts)
  {
    Snoc(part, i + 1);
    if i == 0 {
      assert part[..0] + [part[0]] == [part[0]];
    } else {
      TakeAppended(parts, part[..i]);
      assert |parts + [part[..i]]| - 1 == |parts|;
    }
  }

  lemma {:induction false} LineReaches(parts: seq<Part>)
    ensures Reaches(LineCommands(parts), State(Point(0, 0), [], 0, false), State(End(parts), Filled(parts), 0, false))
  {
    var start := State(Point(0, 0), [], 0, false);
    if parts == [] {
      Idle(Point(0, 0), [], false);
    } else {
      var n := |parts| - 1;
      var part, at, done := parts[n], End(parts[..n]), Filled(parts[..n]);
      LineReaches(parts[..n]);
      WholePart(part, at, done);
      hide Reaches, PartCommands, Cursor;
      Chained(LineCommands(parts[..n]), PartCommands(part, |part|, at), start,
        State(at, done, 0, false), State(End(parts), Filled(parts), 0, false));
    }
  }

  lemma WholePart(part: Part, at: Point, parts: seq<Part>)
    ensures Reaches(PartCommands(part, |part|, at), State(at, parts, 0, false),
                    State(Cursor(part, |part|, at), parts + (if part == [] then [] else [part]), 0, false))
  {
    var end := Within(part, |part|, at, parts);
    PartReaches(part, |part|, at, parts);
    Idle(end.at, end.parts, end.drawing);
    Whole(part);
    assert end.left == 0;
    var commands, idle := PartCommands(part, |part|, at), State(end.at, end.parts, 0, false);
    assert parts + [] == parts;
    hide Reaches, PartCommands;
    Chained(commands, [], State(at, parts, 0, false), end, idle);
    assert commands + [] == commands;
  }

  /** Decoding the commands of some parts returns those that hold a point. */
  lemma LineRoundTrip(parts: seq<Part>)
    ensures Decode(LineCommands(parts), State(Point(0, 0), [], 0, false)) == Some(Filled(parts))
  {
    LineReaches(parts);
    var commands := LineCommands(parts);
    assert commands + [] == commands;
    assert Decode([], State(End(parts), Filled(parts), 0, false)) == Some(Filled(parts));
    hide Decode;
  }
}
