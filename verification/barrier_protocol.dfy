/** The barrier of thread_coordination as interleaved atomic steps: one start_threads run with a
    main thread and any number of sub threads, each running the same number of rounds of
    synchronized(f). The three atomics start at 0, as they do before the first such run. */
module BarrierProtocol {

  datatype MainPc = Rest | SpinStart | ZeroStart | LevelStart | InF | SpinEnd | ZeroEnd | LevelEnd

  datatype SubPc = Idle | ArriveStart | WaitStart | Running | ArriveEnd | WaitEnd

  datatype Main = Main(pc: MainPc, stage: nat)

  datatype Sub = Sub(pc: SubPc, stage: nat)

  datatype State = State(rounds: nat, level: nat, waitStart: nat, waitEnd: nat, main: Main, subs: seq<Sub>)

  function Init(rounds: nat, subs: nat): State {
    State(rounds, 0, 0, 0, Main(Rest, 0), seq(subs, _ => Sub(Idle, 0)))
  }

  /** One step of the main thread or of the i-th sub thread. */
  datatype Action = MainStep | SubStep(i: nat)

  predicate MainDone(s: State) {
    s.main.pc.Rest? && s.main.stage >= 2 * s.rounds
  }

  predicate SubDone(s: State, i: nat) {
    i < |s.subs| && s.subs[i].pc.Idle? && s.subs[i].stage >= 2 * s.rounds
  }

  predicate Enabled(s: State, a: Action) {
    match a
    case MainStep => !MainDone(s)
    case SubStep(i) => i < |s.subs| && !SubDone(s, i)
  }

  function MainTo(s: State, pc: MainPc): State {
    s.(main := Main(pc, s.main.stage))
  }

  function SubTo(s: State, i: nat, pc: SubPc, stage: nat): State {
    if i < |s.subs| then s.(subs := s.subs[i := Sub(pc, stage)]) else s
  }

  function Apply(s: State, a: Action): State {
    match a
    case MainStep => MainApply(s)
    case SubStep(i) => if i < |s.subs| then SubApply(s, i) else s
  }

  /** start_stage(p - 1, ++_stage), f, end_stage(p - 1, ++_stage) of the main thread. */
  function MainApply(s: State): State {
    var p := |s.subs|;
    match s.main.pc
    case Rest => s.(main := Main(SpinStart, s.main.stage + 1))
    case SpinStart => if s.waitStart < p then s else MainTo(s, ZeroStart)
    case ZeroStart => MainTo(s, LevelStart).(waitStart := 0)
    case LevelStart => MainTo(s, InF).(level := s.main.stage)
    case InF => s.(main := Main(SpinEnd, s.main.stage + 1))
    case SpinEnd => if s.waitEnd < p then s else MainTo(s, ZeroEnd)
    case ZeroEnd => MainTo(s, LevelEnd).(waitEnd := 0)
    case LevelEnd => MainTo(s, Rest).(level := s.main.stage)
  }

  /** start_stage(++_stage), f, end_stage(++_stage) of a sub thread. */
  function SubApply(s: State, i: nat): State
    requires i < |s.subs|
  {
    var t := s.subs[i];
    match t.pc
    case Idle => SubTo(s, i, ArriveStart, t.stage + 1)
    case ArriveStart => SubTo(s, i, WaitStart, t.stage).(waitStart := s.waitStart + 1)
    case WaitStart => if s.level < t.stage then s else SubTo(s, i, Running, t.stage)
    case Running => SubTo(s, i, ArriveEnd, t.stage + 1)
    case ArriveEnd => SubTo(s, i, WaitEnd, t.stage).(waitEnd := s.waitEnd + 1)
    case WaitEnd => if s.level < t.stage then s else SubTo(s, i, Idle, t.stage)
  }

  // ---------------------------------------------------------------- runs

  predicate Legal(s: State, acts: seq<Action>)
    decreases |acts|
  {
    acts == [] || (Enabled(s, acts[0]) && Legal(Apply(s, acts[0]), acts[1..]))
  }

  function Exec(s: State, acts: seq<Action>): State
    decreases |acts|
  {
    if acts == [] then s else Exec(Apply(s, acts[0]), acts[1..])
  }

  ghost predicate Reachable(s: State) {
    exists rounds: nat, subs: nat, acts :: Legal(Init(rounds, subs), acts) && s == Exec(Init(rounds, subs), acts)
  }
}
