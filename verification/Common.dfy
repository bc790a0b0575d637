/** Constants and small facts shared by the models. */
module Common {

  const NR_TASKS: nat := 10
  /** `init_sched` pushes every PCB to the front of the free queue, so the idle
      task is PCB 9 and the first user task PCB 8. */
  const IDLE: nat := 9
  const TASK1: nat := 8

  const ECHILD := 10
  const ENOMEM := 12
  const EFAULT := 14
  const EINVAL := 22
  const ENOSHR := 45

  /** Unsigned arithmetic wraps here. */
  const WORD: nat := 0x1_0000_0000

  datatype Option<T> = None | Some(value: T)

  lemma {:induction false} SubsetSize<T>(a: set<T>, b: set<T>)
    requires a <= b
    ensures |a| <= |b|
  {
    if x :| x in a {
      SubsetSize(a - {x}, b - {x});
    }
  }

  ghost function Range(lo: nat, n: nat): (r: set<nat>)
    ensures |r| == n
    ensures forall k: nat :: k in r <==> lo <= k < lo + n
  {
    if n == 0 then {} else Range(lo, n - 1) + {lo + n - 1}
  }
}
