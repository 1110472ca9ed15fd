/** How commands are put into 16 bit forward frames. */
module Addressing {

  datatype Option<T> = None | Some(value: T)

  type Frame = seq<nat>

  /** Random and long addresses have 24 bits. */
  const SPACE: nat := 0x1000000

  /** A YAAAAAA pattern: short addresses, groups and the two broadcast forms. */
  predicate CheckYaaaaaa(y: nat) {
    y <= 79 || y == 127 || y == 255
  }

  predicate HasBit(n: nat, mask: nat)
    requires mask > 0
  {
    n / mask % 2 == 1
  }

  /** The frame of `cmd`: special commands go out as they are, others carry an address in `arg`. */
  function CmdFrame(cmd: nat, arg: nat): Option<Frame> {
    if HasBit(cmd, 0x100) then
      if CheckYaaaaaa(cmd / 2 % 256) then None else Some([cmd % 256, arg % 256])
    else if CheckYaaaaaa(arg) then Some([(2 * arg + 1) % 256, cmd % 256])
    else None
  }

  /** Whether `cmd` is to be sent twice in a row. */
  predicate SentTwice(cmd: nat) {
    HasBit(cmd, 0x200)
  }
}
