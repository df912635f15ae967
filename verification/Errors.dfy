/** Error codes of the kernel; every module uses its own part of them. */
module Errors {

  datatype Err = Ok | EBADF | EFBIG | EINVAL | EMFILE | ENFILE | ENOENT | ENOSPC | EOVERFLOW
}
