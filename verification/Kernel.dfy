/** Return codes, register words and the parser's slot count, shared by the drivers modelled here. */
module Kernel {
  type word = bv32

  /** Hard-parser slots of an RX port. */
  const HXS_COUNT: nat := 16

  const ENOENT := -2
  const EIO := -5
  const ENOMEM := -12
  const EBUSY := -16
  const ENODEV := -19
  const EINVAL := -22
  const ENOSPC := -28
  const ETIMEDOUT := -110
}
