/** The error codes of the library; calls return them negated. */
module Errors {
  const E_NONE := 0
  const E_MEM_OUT := 3
  const E_NET_SOCK := 4
  const E_NET_CONN := 5
  const E_NET_XFER := 6
  const E_SESS_ACK := 7
}
