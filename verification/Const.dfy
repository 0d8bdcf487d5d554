/** Constants of `include/sys/const.h`, `proc.h`, `fs.h`, `tty.h` and `config.h`, and the
    option type that stands for a C pointer which may be 0. */
module Const {
  datatype Option<+T> = None | Some(value: T)

  const NR_TASKS := 5
  const NR_PROCS := 32
  const NR_NATIVE_PROCS := 4
  /** Number of slots of the process table. */
  const NR_SLOTS := NR_TASKS + NR_PROCS

  const TASK_TTY := 0
  const INIT := 5
  const ANY := NR_SLOTS + 10
  const NO_TASK := NR_SLOTS + 20
  const INTERRUPT := -10
  const HARD_INT := 1
  const SEND := 1
  const RECEIVE := 2
  const MAX_TICKS := 0x7FFF_ABCD

  /** The bits of `p_flags`: a flag word is the set of its bits. */
  datatype Flag = Sending | Receiving | Waiting | Hanging | FreeSlot
  type Flags = set<Flag>
  const ALL_FLAGS: Flags := {Sending, Receiving, Waiting, Hanging, FreeSlot}

  const SECTOR_SIZE := 512
  const SECTOR_BITS := 4096
  const NR_DEFAULT_FILE_SECTS := 512
  const NR_FILES := 64
  const NR_FILE_DESC := 64
  const NR_INODE := 64
  const ROOT_INODE := 1
  const NR_CONSOLES := 3
  const MAX_FILENAME_LEN := 12
  const DIR_ENTRY_SIZE := 16
  const INODE_SIZE := 32
  const INSTALL_START_SECT := 0x8000
  const INSTALL_NR_SECTS := 0x800
  const NR_SECTS_FOR_LOG := NR_DEFAULT_FILE_SECTS

  function Min(a: int, b: int): int { if a < b then a else b }
}
