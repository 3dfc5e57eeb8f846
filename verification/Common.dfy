/** What several components share: param.h's log sizes, proc.h's process states, bytes and options. */
module Common {

  const MAXOPBLOCKS: nat := 10
  const LOGBLOCKS: nat := 3 * MAXOPBLOCKS

  type byte = x: int | 0 <= x < 256

  datatype Option<T> = None | Some(value: T)

  datatype RunState = UNUSED | USED | SLEEPING | RUNNABLE | RUNNING | ZOMBIE
}
