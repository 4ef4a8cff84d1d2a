/** File mode: the engine walks the length-prefixed messages of a mapped file. */
module FileRuns {
  import opened BookSpec
  import opened MoldUdp64
  import opened EngineSpec
  import opened OrderBooks
  import opened MatchingEngines
  import Replayer

  function Decoded(msgs: seq<bytes>, decode: bytes -> Message): (ms: seq<Message>)
    ensures |ms| == |msgs|
  {
    seq(|msgs|, i requires 0 <= i < |msgs| => decode(msgs[i]))
  }

  // ---- The course of a run ----

  /** Abstract state and arena size between two messages. */
  datatype Checkpoint = Checkpoint(st: EngineState, arena: nat)

  /** An acceptable message leads from one checkpoint to the next. */
  ghost predicate Leads(a: Checkpoint, m: Message, b: Checkpoint) {
    match a
    case Checkpoint(st, arena) =>
      && |st.sides| == SIDES && Accepts(st, m)
      && b.st == Step(st, m) && b.arena == Max(arena, |b.st.index|)
  }

  ghost predicate LeadsAt(course: seq<Checkpoint>, msgs: seq<bytes>, decode: bytes -> Message, i: nat)
    requires i < |msgs| && |course| == |msgs| + 1
  {
    Leads(course[i], decode(msgs[i]), course[i + 1])
  }

  /** The checkpoints that a list of messages leads through. */
  ghost predicate Course(course: seq<Checkpoint>, msgs: seq<bytes>, decode: bytes -> Message) {
    && |course| == |msgs| + 1
    && (forall i {:trigger LeadsAt(course, msgs, decode, i)} | 0 <= i < |msgs| :: LeadsAt(course, msgs, decode, i))
  }

  /** Every admissible list has a course, and it ends at the fold of the specification. */
  lemma FindCourse(start: EngineState, arena: nat, msgs: seq<bytes>, decode: bytes -> Message)
    returns (course: seq<Checkpoint>)
    requires |start.sides| == SIDES && Admissible(start, Decoded(msgs, decode)) && arena >= |start.index|
    ensures Course(course, msgs, decode) && course[0] == Checkpoint(start, arena)
    ensures var ms := Decoded(msgs, decode);
            course[|msgs|] == Checkpoint(Run(start, ms), Max(arena, Peak(start, ms)))
  {
    var ms := Decoded(msgs, decode);
    course := seq(|ms| + 1, i requires 0 <= i <= |ms| =>
                    Checkpoint(Run(start, ms[..i]), Max(arena, Peak(start, ms[..i]))));
    forall i {:trigger LeadsAt(course, msgs, decode, i)} | 0 <= i < |msgs| ensures LeadsAt(course, msgs, decode, i) {
      NextMessage(start, ms, i);
    }
    assert ms[..|ms|] == ms;
  }

  /** One message, from one checkpoint to the next. */
  method RunNext(engine: MatchingEngine, m: Message, scratch: EngineScratch, ghost a: Checkpoint, ghost b: Checkpoint)
    requires engine.Valid() && a == Checkpoint(engine.st, |engine.pool.nodes|) && Leads(a, m, b)
    modifies engine, engine.pool, engine.sides, engine.orderMap, engine.orderMap.table, scratch
    ensures engine.Valid() && b == Checkpoint(engine.st, |engine.pool.nodes|)
  {
    var ok := engine.ProcessMessage(m, scratch);
  }

  // ---- The file ----

  /** The cursor stands at message i of the file. */
  ghost predicate AtMessage(data: bytes, pos: nat, msgs: seq<bytes>, i: nat) {
    i <= |msgs| && pos <= |data| && data[pos..] == Body(msgs[i..]) && Sendable(msgs)
  }

  /** The length-prefixed message at a cursor. */
  method ReadFrame(data: bytes, pos: nat, ghost msgs: seq<bytes>, ghost i: nat) returns (msg: bytes, next: nat)
    requires AtMessage(data, pos, msgs, i) && pos < |data|
    ensures i < |msgs| && msg == msgs[i] && pos < next && AtMessage(data, next, msgs, i + 1)
  {
    Replayer.FrontOf(data, pos, msgs[i..]);
    var messageLength := Swap16(Load16(data[pos..pos + 2]));
    next := pos + 2 + messageLength;
    assert msgs[i..][1..] == msgs[i + 1..];
    msg := data[pos + 2..next];
  }

  lemma AtEnd(data: bytes, msgs: seq<bytes>, i: nat)
    requires AtMessage(data, |data|, msgs, i)
    ensures i == |msgs|
  {
    assert msgs[i..] == [];
  }

  /** Message i of a list. */
  method RunAt(engine: MatchingEngine, msg: bytes, decode: bytes -> Message, scratch: EngineScratch,
               ghost msgs: seq<bytes>, ghost i: nat, ghost course: seq<Checkpoint>)
    requires i < |msgs| && msg == msgs[i] && Course(course, msgs, decode)
    requires engine.Valid() && course[i] == Checkpoint(engine.st, |engine.pool.nodes|)
    modifies engine, engine.pool, engine.sides, engine.orderMap, engine.orderMap.table, scratch
    ensures engine.Valid() && course[i + 1] == Checkpoint(engine.st, |engine.pool.nodes|)
  {
    assert LeadsAt(course, msgs, decode, i);
    RunNext(engine, decode(msg), scratch, course[i], course[i + 1]);
  }

  /** Reads and processes the message at `pos`. */
  method Turn(engine: MatchingEngine, data: bytes, pos: nat, decode: bytes -> Message, scratch: EngineScratch,
              ghost msgs: seq<bytes>, ghost i: nat, ghost course: seq<Checkpoint>) returns (next: nat)
    requires AtMessage(data, pos, msgs, i) && pos < |data| && Course(course, msgs, decode)
    requires engine.Valid() && course[i] == Checkpoint(engine.st, |engine.pool.nodes|)
    modifies engine, engine.pool, engine.sides, engine.orderMap, engine.orderMap.table, scratch
    ensures pos < next && AtMessage(data, next, msgs, i + 1)
    ensures engine.Valid() && course[i + 1] == Checkpoint(engine.st, |engine.pool.nodes|)
  {
    var msg;
    msg, next := ReadFrame(data, pos, msgs, i);
    RunAt(engine, msg, decode, scratch, msgs, i, course);
  }

  /** The loop over the mapped bytes. */
  method Walk(engine: MatchingEngine, data: bytes, decode: bytes -> Message, scratch: EngineScratch,
              ghost msgs: seq<bytes>, ghost course: seq<Checkpoint>)
    requires AtMessage(data, 0, msgs, 0) && Course(course, msgs, decode)
    requires engine.Valid() && course[0] == Checkpoint(engine.st, |engine.pool.nodes|)
    modifies engine, engine.pool, engine.sides, engine.orderMap, engine.orderMap.table, scratch
    ensures engine.Valid() && course[|msgs|] == Checkpoint(engine.st, |engine.pool.nodes|)
  {
    ghost var i: nat := 0;
    var pos: nat := 0;
    while pos < |data|
      invariant AtMessage(data, pos, msgs, i)
      invariant engine.Valid() && course[i] == Checkpoint(engine.st, |engine.pool.nodes|)
      decreases |data| - pos
    {
      pos := Turn(engine, data, pos, decode, scratch, msgs, i, course);
      i := i + 1;
    }
    AtEnd(data, msgs, i);
  }

  /** Processes every message of the file, in order: the engine ends at the fold of the specification over
      the file, and its arena has grown to the most orders ever live at once, if that is larger. */
  method RunFile(engine: MatchingEngine, data: bytes, decode: bytes -> Message, scratch: EngineScratch,
                 ghost msgs: seq<bytes>)
    requires data == Body(msgs) && Sendable(msgs)
    requires engine.Valid() && Admissible(engine.st, Decoded(msgs, decode))
    modifies engine, engine.pool, engine.sides, engine.orderMap, engine.orderMap.table, scratch
    ensures engine.Valid() && engine.st == Run(old(engine.st), Decoded(msgs, decode))
    ensures |engine.pool.nodes| == Max(old(|engine.pool.nodes|), Peak(old(engine.st), Decoded(msgs, decode)))
  {
    LiveFits(engine.Now());
    ghost var course := FindCourse(engine.st, |engine.pool.nodes|, msgs, decode);
    Walk(engine, data, decode, scratch, msgs, course);
  }

  /** File mode from program start: the arena ends exactly as large as the most orders ever live at once. */
  method RunFromStart(data: bytes, decode: bytes -> Message, ghost msgs: seq<bytes>) returns (engine: MatchingEngine)
    requires data == Body(msgs) && Sendable(msgs) && Admissible(Initial(), Decoded(msgs, decode))
    ensures fresh(engine) && engine.Valid() && engine.st == Run(Initial(), Decoded(msgs, decode))
    ensures |engine.pool.nodes| == Peak(Initial(), Decoded(msgs, decode))
  {
    engine := new MatchingEngine();
    var scratch := new EngineScratch();
    RunFile(engine, data, decode, scratch, msgs);
  }
}
