/** The three-stage fetch loop, and its refinement of fetching each instruction directly. */
module ArmPipeline {
  import opened ArmState
  import opened ArmPsr
  import opened ArmPsrLaws
  import opened ArmExceptions
  import opened ArmBlock
  import opened ArmTransfer
  import opened ArmExecute
  import opened ArmSteps

  /** The loop's own variables: the address of the current instruction and the two words
      fetched behind it. */
  datatype Pipeline = Pipeline(pc: word, decoded: word, loaded: word)

  /** A fetch: the machine ready to execute `instr` at `pipe.pc`, or an address off the end of
      the 26-bit space. */
  datatype Fetched = Fetched(m: Machine, pipe: Pipeline, instr: word) | OffEnd

  predicate InSpace(address: word) {
    PcOf(address) == address && WordAt(address) < MEMWORDS
  }

  /** The instruction, the two prefetched behind it and the one behind those are in memory. */
  predicate Ahead(pc: word) {
    && InSpace(pc) && InSpace(Forth(pc)) && InSpace(Forth(Forth(pc))) && InSpace(Forth(Forth(Forth(pc))))
  }

  function Fetch(m: Machine, address: word): word
    requires Running(m) && InSpace(address)
  {
    m.mem[WordAt(address)]
  }

  /** Register 15 and the loop state once the pipeline has advanced to a new instruction. */
  function Refilled(m: Machine, r15: word): (n: Machine)
    requires Running(m)
    ensures Running(n) && n.cpu.next == NORMALCYCLE && n.cpu.reg[15] == r15 && n.mem == m.mem
    ensures Confined(m.cpu, n.cpu)
  {
    m.(cpu := SetReg(m.cpu, 15, r15).(next := NORMALCYCLE))
  }

  /** The switch on `NextInstr` at the top of the emulator's loop. */
  function Advance(m: Machine, p: Pipeline): (f: Fetched)
    requires Running(m)
    ensures f.Fetched? ==> Running(f.m) && f.m.cpu.next == NORMALCYCLE && Confined(m.cpu, f.m.cpu) && f.m.mem == m.mem
  {
    if m.cpu.next.prime then
      var pc := R15PC(m.cpu);
      if !Ahead(pc) then OffEnd
      else
        Fetched(Refilled(m, Forth(Forth(pc))),
                Pipeline(pc, Fetch(m, Forth(pc)), Fetch(m, Forth(Forth(pc)))),
                Fetch(m, pc))
    else
      var pc := Forth(p.pc);
      if !Ahead(pc) then OffEnd
      else
        Fetched(Refilled(m, if m.cpu.next.incPc then m.cpu.reg[15] else Forth(m.cpu.reg[15])),
                Pipeline(pc, p.loaded, Fetch(m, Forth(Forth(pc)))),
                p.decoded)
  }

  // ---- Fetching directly ----

  /** Where the next instruction is, without a pipeline. */
  function NextPc(m: Machine, pc: word): word
    requires Running(m)
  {
    if m.cpu.next.prime then R15PC(m.cpu) else Forth(pc)
  }

  /** The machine as it executes the instruction at `pc`: what register 15 reads is eight on. */
  function DirectMachine(m: Machine, pc: word): (n: Machine)
    requires Running(m)
    ensures Running(n) && n.cpu.next == NORMALCYCLE
  {
    var c := m.cpu;
    Refilled(m, if c.next.prime then Forth(Forth(pc)) else if c.next.incPc then c.reg[15] else Forth(c.reg[15]))
  }

  /** The pipeline agrees with memory and with register 15. */
  predicate Coherent(m: Machine, p: Pipeline) {
    && Running(m)
    && (m.cpu.next.prime ||
        (&& Ahead(p.pc)
         && p.decoded == Fetch(m, Forth(p.pc)) && p.loaded == Fetch(m, Forth(Forth(p.pc)))
         && R15PC(m.cpu) == (if m.cpu.next.incPc then Forth(Forth(Forth(p.pc))) else Forth(Forth(p.pc)))))
  }

  /** A word below the top of the space carries nothing into the status bits. */
  lemma ForthPc(w: word)
    requires PcOf(Forth(PcOf(w))) == Forth(PcOf(w))
    ensures PcOf(Forth(w)) == Forth(PcOf(w))
  {
    hide Forth, Rest, PcOf;
    SplitPc(w);
    CarryParts(PcOf(w), Rest(w));
  }

  lemma CarryParts(p: word, s: word)
    requires Rest(p) == 0 && PcOf(s) == 0 && PcOf(Forth(p)) == Forth(p)
    ensures PcOf(Forth(p | s)) == Forth(p)
  {
    hide Forth, Rest, PcOf;
    ForthOr(p, s);
    OrParts(Forth(p), s);
  }

  lemma ForthOr(p: word, s: word)
    requires Rest(p) == 0 && PcOf(s) == 0 && PcOf(Forth(p)) == Forth(p)
    ensures Forth(p | s) == Forth(p) | s && Rest(Forth(p)) == 0
  {}

  /** From a coherent state the loop executes, by whichever route, the word memory holds at the
      next address, with register 15 eight beyond it, and is coherent again. */
  lemma FetchIsDirect(m: Machine, p: Pipeline)
    requires Coherent(m, p)
    ensures var f := Advance(m, p);
            var pc := NextPc(m, p.pc);
            && (f.Fetched? <==> Ahead(pc))
            && (f.Fetched? ==>
                  && f.m == DirectMachine(m, pc) && f.pipe.pc == pc && f.instr == Fetch(m, pc)
                  && R15PC(f.m.cpu) == Forth(Forth(pc)) && Coherent(f.m, f.pipe))
  {
    hide Forth, PcOf, WordAt;
    var pc := NextPc(m, p.pc);
    if Ahead(pc) && !m.cpu.next.prime && !m.cpu.next.incPc {
      ForthPc(m.cpu.reg[15]);
    }
  }

  // ---- Whole runs ----

  /** The state between two iterations of a run, or the end of what is modelled. */
  datatype Run = At(m: Machine, pipe: Pipeline) | Left

  /** One iteration of the emulator's loop. */
  function Iterate(m: Machine, p: Pipeline): (r: Run)
    requires Running(m)
    ensures r.At? ==> Running(r.m)
  {
    var f := Advance(m, p);
    if f.OffEnd? then Left
    else
      var o := Execute(f.m, f.pipe.pc, f.instr);
      if o.Outside? then Left else At(o.m, f.pipe)
  }

  function Emulate(m: Machine, p: Pipeline, n: nat): (r: Run)
    requires Running(m)
    ensures r.At? ==> Running(r.m)
    decreases n
  {
    if n == 0 then At(m, p)
    else
      var r := Iterate(m, p);
      if r.Left? then Left else Emulate(r.m, r.pipe, n - 1)
  }

  datatype DirectRun = On(m: Machine, pc: word) | Off

  /** One instruction fetched and executed with no pipeline. */
  function Step(m: Machine, pc: word): (r: DirectRun)
    requires Running(m)
    ensures r.On? ==> Running(r.m)
  {
    var next := NextPc(m, pc);
    if !Ahead(next) then Off
    else
      var o := Execute(DirectMachine(m, next), next, Fetch(m, next));
      if o.Outside? then Off else On(o.m, next)
  }

  function RunDirectly(m: Machine, pc: word, n: nat): (r: DirectRun)
    requires Running(m)
    ensures r.On? ==> Running(r.m)
    decreases n
  {
    if n == 0 then On(m, pc)
    else
      var r := Step(m, pc);
      if r.Off? then Off else RunDirectly(r.m, r.pc, n - 1)
  }

  /** An instruction that does not jump leaves the two words prefetched behind it as they were. */
  predicate KeepsPrefetched(m: Machine, pc: word)
    requires Running(m)
  {
    var r := Step(m, pc);
    r.On? && !r.m.cpu.next.prime && Ahead(r.pc) ==>
      Fetch(r.m, Forth(r.pc)) == Fetch(m, Forth(r.pc)) && Fetch(r.m, Forth(Forth(r.pc))) == Fetch(m, Forth(Forth(r.pc)))
  }

  predicate AllKeepPrefetched(m: Machine, pc: word, n: nat)
    requires Running(m)
    decreases n
  {
    n == 0 ||
    (KeepsPrefetched(m, pc) && (Step(m, pc).On? ==> AllKeepPrefetched(Step(m, pc).m, Step(m, pc).pc, n - 1)))
  }

  /** Executing from a coherent fetch leaves register 15 coherent with the new state. */
  lemma ExecutedPc(m: Machine, p: Pipeline, o: Outcome)
    requires Running(m) && m.cpu.next == NORMALCYCLE && Ahead(p.pc) && R15PC(m.cpu) == Forth(Forth(p.pc))
    requires !o.Outside? && Running(o.m) && Lawful(m, o)
    ensures o.m.cpu.next.prime ||
      R15PC(o.m.cpu) == if o.m.cpu.next.incPc then Forth(Forth(Forth(p.pc))) else Forth(Forth(p.pc))
  {
    hide Forth, PcOf, WordAt;
    if o.Done? && !o.m.cpu.next.prime && o.m.cpu.next.incPc {
      ForthPc(m.cpu.reg[15]);
    }
  }

  /** One iteration of the loop is one direct step, as long as the step keeps the prefetched
      words. */
  lemma IterateIsStep(m: Machine, p: Pipeline)
    requires Coherent(m, p) && KeepsPrefetched(m, p.pc)
    ensures var r, d := Iterate(m, p), Step(m, p.pc);
            && (r.At? <==> d.On?)
            && (r.At? ==> r.m == d.m && r.pipe.pc == d.pc && Coherent(r.m, r.pipe))
  {
    hide Forth, PcOf, WordAt, Execute, Lawful;
    FetchIsDirect(m, p);
    var f := Advance(m, p);
    if f.Fetched? {
      ExecuteLawful(f.m, f.pipe.pc, f.instr);
      var o := Execute(f.m, f.pipe.pc, f.instr);
      if !o.Outside? {
        ExecutedPc(f.m, f.pipe, o);
      }
    }
  }

  /** Over whole runs that do not overwrite prefetched words, the pipelined emulator and the
      direct one pass through the same states. */
  lemma {:induction false} EmulationIsDirect(m: Machine, p: Pipeline, n: nat)
    requires Running(m) && Coherent(m, p) && AllKeepPrefetched(m, p.pc, n)
    ensures var r, d := Emulate(m, p, n), RunDirectly(m, p.pc, n);
            && (r.At? <==> d.On?)
            && (r.At? ==> r.m == d.m && r.pipe.pc == d.pc && Coherent(r.m, r.pipe))
    decreases n
  {
    hide Iterate, Step, KeepsPrefetched, Coherent;
    if n > 0 {
      IterateIsStep(m, p);
      var r := Iterate(m, p);
      if r.At? {
        EmulationIsDirect(r.m, r.pipe, n - 1);
      }
    }
  }

  // ---- User mode over whole runs ----

  /** No instruction of the run takes an exception. */
  predicate NoTraps(m: Machine, p: Pipeline, n: nat)
    requires Running(m)
    decreases n
  {
    n == 0 || Advance(m, p).OffEnd? ||
    (var f := Advance(m, p);
     var o := Execute(f.m, f.pipe.pc, f.instr);
     !o.Trapped? && (o.Done? ==> NoTraps(o.m, f.pipe, n - 1)))
  }

  /** A program in user mode cannot change mode, bank or interrupt masks, however long it runs,
      except by an exception. */
  lemma {:induction false} UserStaysUser(m: Machine, p: Pipeline, n: nat)
    requires Running(m) && m.cpu.mode == USER26 && NoTraps(m, p, n)
    ensures Emulate(m, p, n).At? ==> Confined(m.cpu, Emulate(m, p, n).m.cpu)
    decreases n
  {
    hide Execute, Advance;
    if n > 0 {
      var f := Advance(m, p);
      if f.Fetched? {
        ExecuteLawful(f.m, f.pipe.pc, f.instr);
        var o := Execute(f.m, f.pipe.pc, f.instr);
        if o.Done? {
          UserStaysUser(o.m, f.pipe, n - 1);
        }
      }
    }
  }
}
