/** A readers-writer lock as its users see it: who holds it, and in which mode. */
module RwLock {

  type Pid = nat

  datatype Mode = Shared | Exclusive

  type Lock = map<Pid, Mode>

  datatype Event =
    | Acquire(pid: Pid, mode: Mode)
    | Release(pid: Pid)
    | Downgrade(pid: Pid)   // exclusive to shared, without letting go
    | Stutter

  predicate Compatible(m: Mode, n: Mode) {
    m == Shared && n == Shared
  }

  /** `pid` may take the lock in `mode` next to its present holders. */
  predicate Admits(lock: Lock, pid: Pid, mode: Mode) {
    pid !in lock && forall q | q in lock :: Compatible(mode, lock[q])
  }

  predicate Next(before: Lock, after: Lock, e: Event) {
    match e
    case Acquire(p, m) => Admits(before, p, m) && after == before[p := m]
    case Release(p) => p in before && after == before - {p}
    case Downgrade(p) => p in before && before[p] == Exclusive && after == before[p := Shared]
    case Stutter => after == before
  }

  /** Two holders at once are two readers. */
  predicate Excludes(lock: Lock) {
    forall p, q | p in lock && q in lock && p != q :: Compatible(lock[p], lock[q])
  }
}
