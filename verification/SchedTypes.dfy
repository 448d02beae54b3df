/** The scheduler's tables in proc.c. Pointers into the process table are indices, and -1
    is the null pointer. */
module SchedTypes {
  import Blocks

  const NPROC: nat := 64
  const MAXINT: nat := 2147483647
  const UINT: nat := Blocks.WORD_LIMIT
  const ENTIRETICKETS: nat := 100
  const SHARES: nat := 1000  // ENTIRETICKETS * ACCURATENUM

  type U32 = x: nat | x < UINT

  datatype ProcState = UNUSED | EMBRYO | SLEEPING | RUNNABLE | RUNNING | ZOMBIE

  datatype Proc = Proc(state: ProcState, pgdir: nat, level: nat, used: nat)

  /** struct strideproc; `slots` is its pptable. */
  datatype Group = Group(tickets: U32, stride: U32, pass: U32, used: nat, sid: nat, cur: nat, slots: seq<int>) {
    predicate Active() {
      sid != 0
    }
  }

  /** C's x - y on uint. */
  function Minus(x: int, y: int): (r: U32) {
    (x - y) % UINT
  }

  function Plus(x: int, y: int): (r: U32) {
    (x + y) % UINT
  }
}
