/**
The x86-64 context switch: `context_swap` (src/context_swap.S) instruction by instruction, and
`context_make` (src/context.c).  Memory is a map from the addresses of aligned 8-byte words to their
values; a register block is 14 consecutive words.
 */
module ContextSwitch {

  type Memory = map<int, int>

  function Read(mem: Memory, a: int): int {
    if a in mem then mem[a] else 0
  }

  /** The general registers that the switch touches, and the instruction pointer. */
  datatype Regs = Regs(
    rax: int, rbx: int, rcx: int, rdx: int, rsi: int, rdi: int, rbp: int, rsp: int,
    r8: int, r9: int, r12: int, r13: int, r14: int, r15: int, rip: int)

  datatype Machine = Machine(regs: Regs, mem: Memory)

  /** The register block, from its lowest word: `regs[0]` to `regs[13]`. */
  datatype Context = Context(
    r15: int, r14: int, r13: int, r12: int, r9: int, r8: int, rbp: int,
    rdi: int, rsi: int, ret: int, rdx: int, rcx: int, rbx: int, rsp: int)

  const BLOCK_BYTES := 112
  const SLOT_RDI := 56
  const SLOT_RET := 72
  const SLOT_RSP := 104

  function Load(mem: Memory, base: int): Context {
    Context(
      Read(mem, base), Read(mem, base + 8), Read(mem, base + 16), Read(mem, base + 24),
      Read(mem, base + 32), Read(mem, base + 40), Read(mem, base + 48), Read(mem, base + 56),
      Read(mem, base + 64), Read(mem, base + 72), Read(mem, base + 80), Read(mem, base + 88),
      Read(mem, base + 96), Read(mem, base + 104))
  }

  predicate InBlock(base: int, a: int) {
    base <= a < base + BLOCK_BYTES
  }

  predicate Aligned(a: int) {
    a % 8 == 0
  }

  /** What a caller of `context_swap` leaves behind: its registers, its return address, and the stack
      pointer as it will be when the call has returned. */
  function Suspended(m: Machine): Context {
    var r := m.regs;
    Context(r.r15, r.r14, r.r13, r.r12, r.r9, r.r8, r.rbp, r.rdi, r.rsi,
            Read(m.mem, r.rsp), r.rdx, r.rcx, r.rbx, r.rsp + 8)
  }

  /** The registers of a context that continues. */
  function Restored(c: Context): Regs {
    Regs(0, c.rbx, c.rcx, c.rdx, c.rsi, c.rdi, c.rbp, c.rsp, c.r8, c.r9, c.r12, c.r13, c.r14, c.r15, c.ret)
  }

  /** What `context_swap` needs: two separate blocks, a return address outside the block that is
      written, and below the stack pointer to be restored a word outside both blocks. */
  predicate Swappable(m: Machine) {
    var r := m.regs;
    var slot := Load(m.mem, r.rsi).rsp - 8;
    && Aligned(r.rdi) && Aligned(r.rsi) && Aligned(r.rsp) && Aligned(slot)
    && (r.rdi + BLOCK_BYTES <= r.rsi || r.rsi + BLOCK_BYTES <= r.rdi)
    && !InBlock(r.rdi, r.rsp)
    && !InBlock(r.rdi, slot) && !InBlock(r.rsi, slot)
  }

  /** The net effect of `context_swap`. */
  ghost predicate Swapped(m: Machine, m': Machine) {
    var next := Load(m.mem, m.regs.rsi);
    && m'.regs == Restored(next)
    && Load(m'.mem, m.regs.rdi) == Suspended(m)
    && Read(m'.mem, next.rsp - 8) == next.ret
    && forall a :: !InBlock(m.regs.rdi, a) && a != next.rsp - 8 ==> Read(m'.mem, a) == Read(m.mem, a)
  }

  // ---------------------------------------------------------------- the instructions

  /** First half of `context_swap`: the caller's registers go to the block at rdi.  A push lowers the
      stack pointer by 8 and stores at it. */
  method Save(m: Machine) returns (mem: Memory)
    requires !InBlock(m.regs.rdi, m.regs.rsp)
    ensures Load(mem, m.regs.rdi) == Suspended(m)
    ensures forall a :: !InBlock(m.regs.rdi, a) ==> Read(mem, a) == Read(m.mem, a)
  {
    var r := m.regs;
    mem := m.mem;
    var rax := r.rsp + 8;         // leaq 8(%rsp),%rax
    var rsp := r.rdi + 112;       // leaq 112(%rdi),%rsp
    rsp := rsp - 8; mem := mem[rsp := rax];
    rsp := rsp - 8; mem := mem[rsp := r.rbx];
    rsp := rsp - 8; mem := mem[rsp := r.rcx];
    rsp := rsp - 8; mem := mem[rsp := r.rdx];
    rsp := rsp - 8; mem := mem[rsp := Read(mem, rax - 8)];   // pushq -8(%rax)
    rsp := rsp - 8; mem := mem[rsp := r.rsi];
    rsp := rsp - 8; mem := mem[rsp := r.rdi];
    rsp := rsp - 8; mem := mem[rsp := r.rbp];
    rsp := rsp - 8; mem := mem[rsp := r.r8];
    rsp := rsp - 8; mem := mem[rsp := r.r9];
    rsp := rsp - 8; mem := mem[rsp := r.r12];
    rsp := rsp - 8; mem := mem[rsp := r.r13];
    rsp := rsp - 8; mem := mem[rsp := r.r14];
    rsp := rsp - 8; mem := mem[rsp := r.r15];
  }

  /** Second half: the registers of the context whose block is at `block`, and a return to where it
      was suspended.  A pop loads from the stack pointer and raises it by 8. */
  method Restore(block: int, mem0: Memory) returns (m: Machine)
    ensures
      var next := Load(mem0, block);
      m == Machine(Restored(next), mem0[next.rsp - 8 := next.ret])
  {
    var mem, rsp := mem0, block;  // movq %rsi,%rsp
    var r15 := Read(mem, rsp); rsp := rsp + 8;
    var r14 := Read(mem, rsp); rsp := rsp + 8;
    var r13 := Read(mem, rsp); rsp := rsp + 8;
    var r12 := Read(mem, rsp); rsp := rsp + 8;
    var r9 := Read(mem, rsp); rsp := rsp + 8;
    var r8 := Read(mem, rsp); rsp := rsp + 8;
    var rbp := Read(mem, rsp); rsp := rsp + 8;
    var rdi := Read(mem, rsp); rsp := rsp + 8;
    var rsi := Read(mem, rsp); rsp := rsp + 8;
    var rax := Read(mem, rsp); rsp := rsp + 8;
    var rdx := Read(mem, rsp); rsp := rsp + 8;
    var rcx := Read(mem, rsp); rsp := rsp + 8;
    var rbx := Read(mem, rsp); rsp := rsp + 8;
    rsp := Read(mem, rsp);        // popq %rsp
    rsp := rsp - 8; mem := mem[rsp := rax];
    rax := 0;                     // xorl %eax,%eax
    var rip := Read(mem, rsp); rsp := rsp + 8;   // ret
    m := Machine(Regs(rax, rbx, rcx, rdx, rsi, rdi, rbp, rsp, r8, r9, r12, r13, r14, r15, rip), mem);
  }

  /** A block is unaffected by changes to another block. */
  lemma LoadElsewhere(mem: Memory, mem': Memory, base: int, other: int)
    requires base + BLOCK_BYTES <= other || other + BLOCK_BYTES <= base
    requires forall a :: !InBlock(other, a) ==> Read(mem', a) == Read(mem, a)
    ensures Load(mem', base) == Load(mem, base)
  {
  }

  lemma LoadAfterWrite(mem: Memory, base: int, a: int, v: int)
    requires !InBlock(base, a)
    ensures Load(mem[a := v], base) == Load(mem, base)
  {
  }

  /** `context_swap` */
  method ContextSwap(m: Machine) returns (m': Machine)
    requires Swappable(m)
    ensures Swapped(m, m')
  {
    var mem := Save(m);
    LoadElsewhere(m.mem, mem, m.regs.rsi, m.regs.rdi);
    m' := Restore(m.regs.rsi, mem);
    LoadAfterWrite(mem, m.regs.rdi, Load(mem, m.regs.rsi).rsp - 8, Load(mem, m.regs.rsi).ret);
  }

  /** A context that has not run: everything 0 but the stack pointer, the entry point and the argument. */
  function Made(sp: int, size: nat, fun: int, arg: int): Context {
    var top := sp + size - (sp + size) % 16;
    Context(0, 0, 0, 0, 0, 0, 0, arg, 0, fun, 0, 0, 0, top - 8)
  }

  lemma LoadCleared(mem: Memory, base: int)
    requires forall k :: 0 <= k < 14 ==> Read(mem, base + 8 * k) == 0
    ensures Load(mem, base) == Context(0, 0, 0, 0, 0, 0, 0, 0, 0, 0, 0, 0, 0, 0)
  {
    assert Read(mem, base + 8 * 0) == Read(mem, base + 8 * 1) == Read(mem, base + 8 * 2) == Read(mem, base + 8 * 3)
        == Read(mem, base + 8 * 4) == Read(mem, base + 8 * 5) == Read(mem, base + 8 * 6) == Read(mem, base + 8 * 7)
        == Read(mem, base + 8 * 8) == Read(mem, base + 8 * 9) == Read(mem, base + 8 * 10) == Read(mem, base + 8 * 11)
        == Read(mem, base + 8 * 12) == Read(mem, base + 8 * 13) == 0;
  }

  /** `context_make`: clear the block, then set stack pointer, entry point and argument. */
  method ContextMake(mem0: Memory, base: int, sp: int, size: nat, fun: int, arg: int) returns (mem: Memory)
    ensures Load(mem, base) == Made(sp, size, fun, arg)
    ensures forall a :: !InBlock(base, a) ==> Read(mem, a) == Read(mem0, a)
  {
    var top := sp + size;
    top := top - top % 16;        // & -16
    mem := mem0;
    for i := 0 to 14              // memset
      invariant forall k :: 0 <= k < i ==> Read(mem, base + 8 * k) == 0
      invariant forall a :: !InBlock(base, a) ==> Read(mem, a) == Read(mem0, a)
    {
      mem := mem[base + 8 * i := 0];
    }
    LoadCleared(mem, base);
    mem := mem[base + SLOT_RSP := top - 8];
    mem := mem[base + SLOT_RET := fun];
    mem := mem[base + SLOT_RDI := arg];
  }

  /** The entry point finds the stack as the System V calling convention promises it: a multiple of 16
      once the return address is counted, inside the stack area, and at its high end, less than 24
      bytes below it; there is only one such place. */
  lemma MadeStackAligned(sp: int, size: nat, fun: int, arg: int)
    requires 32 <= size
    ensures
      var c := Made(sp, size, fun, arg);
      (c.rsp + 8) % 16 == 0 && sp <= c.rsp - 8 && sp + size - 24 < c.rsp <= sp + size - 8
  {
  }
}
