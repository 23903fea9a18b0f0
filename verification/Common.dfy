/** Types shared by every module of the project. */
module Common {

  datatype Option<+T> = None | Some(value: T)

  type byte = x: int | 0 <= x < 0x100

  type uint32 = x: int | 0 <= x < 0x1_0000_0000
}
