/** What a thread runs with, on a processor and in its record (src/proc/process_management.h:14-22,
    79-111). */
module Contexts {
  /** The registers an interrupt pushes. */
  datatype Frame = Frame(rax: nat, rbx: nat, rcx: nat, rdx: nat, rbp: nat, rdi: nat, rsi: nat,
                         r8: nat, r9: nat, r10: nat, r11: nat, r12: nat, r13: nat, r14: nat, r15: nat,
                         rip: nat, cs: nat, rflags: nat, rsp: nat, ss: nat)

  /** What is live on a processor: the frame to return to, the per-processor words that belong to the
      thread, and the control and floating-point registers. */
  datatype Live = Live(frame: Frame, kernelStack: nat, userStack: nat, ignoreRing: nat,
                       cr3: nat, sse: seq<nat>, mxcsr: nat, fcw: nat, fsBase: nat)

  datatype Regs = Regs(rax: nat, rbx: nat, rcx: nat, rdx: nat, rbp: nat, rdi: nat, rsi: nat,
                       r8: nat, r9: nat, r10: nat, r11: nat, r12: nat, r13: nat, r14: nat, r15: nat,
                       rsp: nat, rip: nat, ss: nat, cs: nat, fs: nat, rflags: nat, cr3: nat,
                       mxcsr: nat, fcw: nat)

  datatype Phase = Ready | Running | Blocked | Sleeping | WaitEvent | WaitEventTimeout

  datatype Thread = Thread(tid: nat, phase: Phase, running: bool, cpu: int, regs: Regs,
                           kernelStack: nat, userStack: nat, ignoreRing: nat, sse: seq<nat>,
                           event: nat, timeout: nat, waitStart: nat)

  /** The save half of schedule: everything but FS.base, which only its system call writes. */
  function Saved(th: Thread, live: Live): Thread {
    var r := live.frame;
    th.(regs := Regs(r.rax, r.rbx, r.rcx, r.rdx, r.rbp, r.rdi, r.rsi, r.r8, r.r9, r.r10, r.r11, r.r12,
                     r.r13, r.r14, r.r15, r.rsp, r.rip, r.ss, r.cs, th.regs.fs, r.rflags, live.cr3,
                     live.mxcsr, live.fcw),
        kernelStack := live.kernelStack, userStack := live.userStack,
        ignoreRing := live.ignoreRing, sse := live.sse)
  }

  /** The restore half. */
  function Restored(th: Thread): Live {
    var g := th.regs;
    Live(Frame(g.rax, g.rbx, g.rcx, g.rdx, g.rbp, g.rdi, g.rsi, g.r8, g.r9, g.r10, g.r11, g.r12,
               g.r13, g.r14, g.r15, g.rip, g.cs, g.rflags, g.rsp, g.ss),
         th.kernelStack, th.userStack, th.ignoreRing, g.cr3, th.sse, g.mxcsr, g.fcw, g.fs)
  }

  /** The record holds what the processor has, each register in its own place, FS.base apart. */
  ghost predicate Agree(th: Thread, live: Live) {
    && live.frame.rax == th.regs.rax && live.frame.rbx == th.regs.rbx && live.frame.rcx == th.regs.rcx
    && live.frame.rdx == th.regs.rdx && live.frame.rbp == th.regs.rbp && live.frame.rdi == th.regs.rdi
    && live.frame.rsi == th.regs.rsi && live.frame.r8 == th.regs.r8 && live.frame.r9 == th.regs.r9
    && live.frame.r10 == th.regs.r10 && live.frame.r11 == th.regs.r11 && live.frame.r12 == th.regs.r12
    && live.frame.r13 == th.regs.r13 && live.frame.r14 == th.regs.r14 && live.frame.r15 == th.regs.r15
    && live.frame.rip == th.regs.rip && live.frame.rsp == th.regs.rsp && live.frame.rflags == th.regs.rflags
    && live.frame.cs == th.regs.cs && live.frame.ss == th.regs.ss
    && live.cr3 == th.regs.cr3 && live.mxcsr == th.regs.mxcsr && live.fcw == th.regs.fcw
    && live.kernelStack == th.kernelStack && live.userStack == th.userStack
    && live.ignoreRing == th.ignoreRing && live.sse == th.sse
  }

  /** Two records hold the same registers and stacks. */
  ghost predicate SameContext(th: Thread, was: Thread) {
    && th.regs == was.regs && th.kernelStack == was.kernelStack && th.userStack == was.userStack
    && th.ignoreRing == was.ignoreRing && th.sse == was.sse
  }

  /** Saving and restoring put each register in its own place, saving leaves FS.base and the rest of the
      record alone, and restoring what was saved gives back the whole context exactly when FS.base on the
      processor was the thread's own. */
  lemma SaveRestore(th: Thread, live: Live)
    ensures Agree(Saved(th, live), live) && Saved(th, live).regs.fs == th.regs.fs
    ensures var r := Saved(th, live);
            && r.tid == th.tid && r.phase == th.phase && r.running == th.running && r.cpu == th.cpu
            && r.event == th.event && r.timeout == th.timeout && r.waitStart == th.waitStart
    ensures Agree(th, Restored(th)) && Restored(th).fsBase == th.regs.fs
    ensures Restored(Saved(th, live)) == live <==> live.fsBase == th.regs.fs
    ensures Saved(th, Restored(th)) == th
  {
  }
}
