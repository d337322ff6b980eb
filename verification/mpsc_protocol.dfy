/** The flip-flop buffer many_producer_single_consumer_buffer as interleaved atomic steps: any
    number of producers run push_back, one consumer runs pop. */
module MpscProtocol {
  import opened Arithmetic

  type Value = int

  const DUMMY: Value := 0

  /** _scnd_buffer_flag, the top bit of the position word. */
  const FLAG: nat := 0x8000_0000_0000_0000

  /** Where the consumer is in pop(). */
  datatype Consumer = Idle | LoadFlag | Swap(first: bool) | Load | Clear(read: Value)

  datatype Popped = Nothing | Some(value: Value)

  /** `pushed` lists the values of successful pushes in the order of their fetch_add, `storing` says
      which of them (by their number in `pushed`) still have to be stored, and where; `popped` lists
      the values pop returned, `last` what the last pop returned. */
  datatype State = State(
    cap: nat, pos: nat, buffer: seq<Value>, readPos: nat, readEnd: nat, pc: Consumer,
    pushed: seq<Value>, storing: map<nat, nat>, popped: seq<Value>, last: Popped)

  function Init(cap: nat): State {
    State(cap, 0, seq(2 * cap, _ => DUMMY), 0, 0, Idle, [], map[], [], Nothing)
  }

  datatype Action = Claim(v: Value) | Store(n: nat) | CallPop | Consume

  /** A push needs a value other than the dummy, and fewer than 2^63 attempts per flip. */
  predicate Enabled(s: State, a: Action) {
    match a
    case Claim(v) => v != DUMMY && s.pos % FLAG < FLAG - 1
    case Store(n) => n in s.storing
    case CallPop => s.pc.Idle?
    case Consume => !s.pc.Idle?
  }

  function Second(pos: nat): bool {
    pos >= FLAG
  }

  function Clean(pos: nat): nat {
    if pos >= FLAG then pos - FLAG else pos
  }

  /** `pos ^= _scnd_buffer_flag`. */
  function Flip(pos: nat): nat {
    if pos >= FLAG then pos - FLAG else pos + FLAG
  }

  /** Where the half that push_back fills now ends. */
  function Limit(s: State): nat {
    if Second(s.pos) then 2 * s.cap else s.cap
  }

  predicate Fits(s: State) {
    Clean(s.pos) < Limit(s)
  }

  function Min(a: nat, b: nat): nat {
    if a <= b then a else b
  }

  function Cell(s: State, i: nat): Value {
    if i < |s.buffer| then s.buffer[i] else DUMMY
  }

  function SetCell(s: State, i: nat, v: Value): seq<Value> {
    if i < |s.buffer| then s.buffer[i := v] else s.buffer
  }

  function Apply(s: State, a: Action): State {
    match a
    case Claim(v) =>
      var s' := s.(pos := (s.pos + 1) % WORD);
      if Fits(s) then s'.(pushed := s.pushed + [v], storing := s.storing[|s.pushed| := Clean(s.pos)]) else s'
    case Store(n) =>
      if n in s.storing && n < |s.pushed|
      then s.(buffer := SetCell(s, s.storing[n], s.pushed[n]), storing := s.storing - {n})
      else s
    case CallPop => s.(pc := if s.readPos == s.readEnd then LoadFlag else Load)
    case Consume => ConsumeStep(s)
  }

  /** The exchange of fetch_on_empty_read_buffer and the lines behind it. */
  function Swapped(s: State, first: bool): State {
    if first
    then s.(readEnd := Min(s.pos, s.cap), readPos := 0, pos := s.cap + FLAG)
    else s.(readEnd := Min(Flip(s.pos), 2 * s.cap), readPos := s.cap, pos := 0)
  }

  function ConsumeStep(s: State): State {
    match s.pc
    case Idle => s
    case LoadFlag => s.(pc := Swap(!Second(s.pos)))
    case Swap(first) =>
      var s' := Swapped(s, first);
      if s'.readPos == s'.readEnd then s'.(pc := Idle, last := Nothing) else s'.(pc := Load)
    case Load => if Cell(s, s.readPos) == DUMMY then s else s.(pc := Clear(Cell(s, s.readPos)))
    case Clear(read) =>
      s.(buffer := SetCell(s, s.readPos, DUMMY), readPos := s.readPos + 1,
         pc := Idle, popped := s.popped + [read], last := Some(read))
  }

  // ---------------------------------------------------------------- runs

  predicate Legal(s: State, acts: seq<Action>)
    decreases |acts|
  {
    acts == [] || (Enabled(s, acts[0]) && Legal(Apply(s, acts[0]), acts[1..]))
  }

  function Exec(s: State, acts: seq<Action>): State
    decreases |acts|
  {
    if acts == [] then s else Exec(Apply(s, acts[0]), acts[1..])
  }

  /** The second half and the flag must fit into one word together. */
  ghost predicate Reachable(s: State) {
    exists cap: nat, acts :: 2 * cap < FLAG && Legal(Init(cap), acts) && s == Exec(Init(cap), acts)
  }
}
