/** Whole runs against the interpreter alone. */
module WholeRuns {
  import opened Words
  import opened Memories
  import opened Interpreter
  import Translator
  import opened CacheMeaning
  import opened Simulation
  import opened Engine
  import opened Agreement
  import InstructionSet
  import InstructionLaws
  import opened VirtualMachine
  import opened CodeLengths

  /** A Vm about to run a guest whose pc the block table has an entry for. */
  ghost predicate Started(p: Params, v: Vm) {
    Prepared(p, v) && InRange(p.config, v.machine.Pc())
  }

  /** The pc looked up is always one the table has. */
  lemma LookedUp(p: Params, g0: Guest, k: nat, g: Guest)
    requires CameTo(p, g0, k, g) && FaithfulFor(p.config, g0.machine, k) && InRange(p.config, g0.machine.Pc())
    requires Sound(g0.machine)
    ensures InRange(p.config, g.machine.Pc())
  {
    hide FaithfulFor, EngineReaches, EngineMove, EngineEffect, WriteXorExecute, Padded;
    if k > 0 {
      var u :| LeadsTo(p, g0, k, u, g);
      NextAgrees(p.config, g0, k - 1, u);
    }
  }

  /** Soundness. After any number of trips k instructions have been done; if none of the first k states of
      the interpreter's run is one in which the engines differ, the guest is where the interpreter's is
      after k steps, and has not strayed off the block table; and if the next is none either, an exit of
      Vm::run is the exit of Vm::run_interpreter there, with the same registers, pc and memory, and short
      of that only a full code buffer ends a run, or what C++ leaves undefined or fatal_error, met by the
      interpreter too. */
  lemma RunIsSound(p: Params, v: Vm, n: nat) returns (k: nat, g: Guest)
    requires Started(p, v)
    ensures EngineReaches(p.config, Waiting(p, v), k, g) && Sound(g.machine)
    ensures var w, s := VmRun(p, v, n), g.machine;
            FaithfulFor(p.config, v.machine, k) ==>
              && Reaches(v.machine, k, s)
              && match w.phase
                 case Dispatching => w.machine == s && 2 * k >= n
                 case InCode(_, h) => h.mem == s.mem && InTable(h, s.regs) && 2 * k + 1 >= n
                 case Done(_) => true
                 case Dead(f) =>
                   w.machine == s && (f == BufferFull || f == Unpredictable || f == FatalError)
    ensures var w, s := VmRun(p, v, n), g.machine;
            FaithfulFor(p.config, v.machine, k + 1) ==>
              match w.phase
              case Done(e) => w.machine == s && Step(s) == Stop(e)
              case Dead(f) => (f == Unpredictable ==> Step(s) == UndefinedBehaviour)
                && (f == FatalError ==> Step(s) == Fatal)
              case _ => true
  {
    hide FaithfulFor, Coherent, ParamsOk, WriteXorExecute, Padded, Step, VmRun, Reaches, EngineReaches, EngineMove,
      InTable, InRange, CameTo, Blocks, EngineEffect;
    k, g := RunTracks(p, v, n);
    var g0 := Waiting(p, v);
    AlignedStart(p, v);
    if FaithfulFor(p.config, v.machine, k) {
      EngineIsInterpreter(p.config, g0, k, g);
      if CameTo(p, g0, k, g) {
        LookedUp(p, g0, k, g);
        RangeCases(p.config, g.machine.Pc());
      }
    }
    if FaithfulFor(p.config, v.machine, k + 1) {
      NextAgrees(p.config, g0, k, g);
    }
  }

  /** However long a run: as far as the engines do not differ its way is the interpreter's. */
  lemma AgreesUntil(p: Params, v: Vm, n: nat, d: nat) returns (k: nat, g: Guest, j: nat, l: Guest)
    requires Started(p, v) && FaithfulFor(p.config, v.machine, d)
    ensures EngineReaches(p.config, Waiting(p, v), k, g) && (VmRun(p, v, n).phase.Dispatching? ==>
            g.machine == VmRun(p, v, n).machine)
    ensures j == if k < d then k else d
    ensures EngineReaches(p.config, Waiting(p, v), j, l) && EngineReaches(p.config, l, k - j, g)
    ensures Reaches(v.machine, j, l.machine)
  {
    hide FaithfulFor, Coherent, ParamsOk, WriteXorExecute, Padded, VmRun, Reaches, EngineReaches, EngineMove, InTable,
      Blocks, DiesOf;
    k, g := RunIsTranslated(p, v, n);
    j := if k < d then k else d;
    l := EngineSplits(p.config, Waiting(p, v), k, g, j);
    AlignedStart(p, v);
    FaithfulFewer(p.config, v.machine, d, j);
    EngineIsInterpreter(p.config, Waiting(p, v), j, l);
  }

  lemma RangeCases(cfg: Translator.Config, pc: Word)
    requires InRange(cfg, pc)
    ensures pc % 4 == 0 && pc / 4 < cfg.maxBlocks
  {
  }

  lemma AlignedStart(p: Params, v: Vm)
    requires Started(p, v)
    ensures v.machine.Pc() % 4 == 0
  {
    hide Coherent, ParamsOk, WriteXorExecute, Padded;
  }

  /** A run under the engine has no more instructions than the interpreter's has steps. */
  lemma NotBeyond(p: Params, v: Vm, k: nat, g: Guest, steps: nat, t: Machine)
    requires Started(p, v) && EngineReaches(p.config, Waiting(p, v), k, g)
    requires FaithfulFor(p.config, v.machine, steps + 1)
    requires Reaches(v.machine, steps, t) && Sound(t) && !Step(t).Next?
    ensures k <= steps
  {
    hide FaithfulFor, Coherent, ParamsOk, WriteXorExecute, Padded, Step, Reaches, EngineReaches, EngineMove, Blocks;
    AlignedStart(p, v);
    if k > steps {
      var l := EngineSplits(p.config, Waiting(p, v), k, g, steps + 1);
      EngineIsInterpreter(p.config, Waiting(p, v), steps + 1, l);
      LastState(v.machine, steps + 1, l.machine, steps, t);
    }
  }

  /** Completeness: when the interpreter stops after some number of steps, in none of which the engines
      differ, so does the Vm within a bounded number of trips, at the same state and in the same way; and
      a buffer with room for every block cannot fill up before that. */
  lemma RunIsComplete(p: Params, v: Vm, steps: nat, t: Machine)
    requires Started(p, v) && FaithfulFor(p.config, v.machine, steps + 1)
    requires Reaches(v.machine, steps, t) && Sound(t) && !Step(t).Next?
    ensures var w := VmRun(p, v, 2 * steps + 2);
            || (w.phase == Dead(BufferFull) && !Room(v.buffer, v.machine.mem.size))
            || (w.machine == t
                && match Step(t)
                   case Stop(e) => w.phase == Done(e)
                   case UndefinedBehaviour => w.phase == Dead(Unpredictable)
                   case _ => w.phase == Dead(FatalError))
  {
    hide FaithfulFor, Coherent, ParamsOk, WriteXorExecute, Padded, Step, VmRun, Reaches, InTable, InRange, Room,
      EngineMove, EngineReaches, Blocks;
    var w := VmRun(p, v, 2 * steps + 2);
    var k, g := RunIsSound(p, v, 2 * steps + 2);
    NotBeyond(p, v, k, g, steps, t);
    FaithfulFewer(p.config, v.machine, steps + 1, k);
    FaithfulFewer(p.config, v.machine, steps + 1, k + 1);
    if w.phase == Dead(BufferFull) {
      if Room(v.buffer, v.machine.mem.size) {
        NeverFull(p, v, 2 * steps + 2);
      }
    } else if Final(w) {
      LastState(v.machine, steps, t, k, g.machine);
    }
  }

  /** Against the instruction set itself, for every guest: after any number of trips k instructions have been
      done; if at none of the first k states translated code departs from the instruction set, they are k
      instructions of the instruction set, each leading on from the one before, and the guest is in the
      registers and memory they lead to. */
  lemma RunMeetsInstructionSet(p: Params, v: Vm, n: nat) returns (k: nat, g: Guest)
    requires Prepared(p, v)
    ensures EngineReaches(p.config, Waiting(p, v), k, g) && Sound(g.machine)
    ensures InstructionLaws.StandardFor(p.config, Waiting(p, v), k) ==> InstructionSet.Runs(v.machine, k, g.machine)
    ensures var w := VmRun(p, v, n);
            match w.phase
            case Dispatching => w.machine == g.machine && 2 * k >= n
            case InCode(_, h) => h.mem == g.machine.mem && InTable(h, g.machine.regs) && 2 * k + 1 >= n
            case Done(e) => EngineMove(p.config, g) == Off(w.machine, e)
            case Dead(_) => w.machine == g.machine
  {
    hide Coherent, WriteXorExecute, Padded, VmRun, EngineReaches, EngineMove, InTable, Blocks, DiesOf,
      InstructionLaws.StandardFor, InstructionSet.Runs;
    k, g := RunIsTranslated(p, v, n);
    if InstructionLaws.StandardFor(p.config, Waiting(p, v), k) {
      InstructionLaws.EngineRunsLaw(p.config, Waiting(p, v), k, g);
    }
  }
}
