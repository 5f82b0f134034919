/** Types and limits that several components share. */
module Common {
  type byte = b: int | 0 <= b < 0x100
  type u16 = h: nat | h < 0x1_0000
  type u32 = w: nat | w < 0x1_0000_0000

  datatype Option<T> = None | Some(value: T)

  /** Task slots of the kernel, and the index that stands for no task. */
  const MAX_TASKS: nat := 13
  const INVALID: nat := 0xFF
}
