/** The flags of an open call and the error numbers of the system calls. */
module Syscalls {
  const O_RDONLY := 0x1
  const O_WRONLY := 0x2
  const O_CREAT := 0x100
  const O_TRUNC := 0x200
  const O_APPEND := 0x400

  const E2BIG := 7
  const EBADF := 9
  const EINVAL := 22
  const ENOSPC := 28
}
