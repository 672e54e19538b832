/** Constants of the Winsock interface. */
module Winsock {
  const INVALID_SOCKET: int := -1
  const INVALID_EVENT: int := 0
  const FD_SETSIZE: nat := 1024
  const MAX_EVENTS: nat := 64
}
