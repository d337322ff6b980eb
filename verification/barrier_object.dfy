/** The barrier's shared atomics and per-thread stages, changed in place. One call of a method is
    one atomic step of one thread; a spin loop is as many calls as it takes. */
module BarrierObject {
  import opened BarrierProtocol
  import opened BarrierSafety

  class Coordination {
    const rounds: nat
    var level: nat
    var waitEnd: nat
    var waitStart: nat
    var mainPc: MainPc
    var mainStage: nat
    const subs: array<Sub>

    constructor (rounds: nat, p: nat)
      requires p > 0
      ensures fresh(subs) && Now() == Init(rounds, p - 1)
    {
      this.rounds, level, waitEnd, waitStart, mainPc, mainStage := rounds, 0, 0, 0, Rest, 0;
      subs := new Sub[p - 1](_ => Sub(Idle, 0));
    }

    ghost function Now(): State
      reads this, subs
    {
      State(rounds, level, waitStart, waitEnd, Main(mainPc, mainStage), subs[..])
    }

    /** main_thread::start_stage(p - 1, ++_stage), the function, end_stage(p - 1, ++_stage). */
    method MainStep()
      requires Inv(Now()) && Enabled(Now(), Action.MainStep)
      modifies this
      ensures Inv(Now()) && Now() == MainApply(old(Now())) && old(level) <= level
    {
      StepMain(Now());
      hide Inv;
      var p := subs.Length;
      match mainPc
      case Rest => mainStage := mainStage + 1; mainPc := SpinStart;
      case SpinStart => if waitStart >= p { mainPc := ZeroStart; }
      case ZeroStart => waitStart := 0; mainPc := LevelStart;
      case LevelStart => level := mainStage; mainPc := InF;
      case InF => mainStage := mainStage + 1; mainPc := SpinEnd;
      case SpinEnd => if waitEnd >= p { mainPc := ZeroEnd; }
      case ZeroEnd => waitEnd := 0; mainPc := LevelEnd;
      case LevelEnd => level := mainStage; mainPc := Rest;
    }

    /** sub_thread::start_stage(++_stage), the function, end_stage(++_stage). */
    method SubStep(i: nat)
      requires Inv(Now()) && Enabled(Now(), Action.SubStep(i))
      modifies this, subs
      ensures Inv(Now()) && Now() == SubApply(old(Now()), i)
    {
      StepSub(Now(), i);
      hide Inv;
      var stage := subs[i].stage;
      match subs[i].pc
      case Idle => subs[i] := Sub(ArriveStart, stage + 1);
      case ArriveStart => waitStart := waitStart + 1; subs[i] := Sub(WaitStart, stage);
      case WaitStart => if level >= stage { subs[i] := Sub(Running, stage); }
      case Running => subs[i] := Sub(ArriveEnd, stage + 1);
      case ArriveEnd => waitEnd := waitEnd + 1; subs[i] := Sub(WaitEnd, stage);
      case WaitEnd => if level >= stage { subs[i] := Sub(Idle, stage); }
    }
  }
}
