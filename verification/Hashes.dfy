/** The hashes of blocks and transactions. They are only compared, so they are the numbers that their bytes spell. */
module Hashes {
  type Hash = nat
}
