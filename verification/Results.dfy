/** The kernel's error codes, and values that may be absent. */
module Results {
  datatype Option<+T> = None | Some(value: T)

  datatype Error = EINVAL | EPERM | ENOENT | EBUSY | EFULL | EIO | ENOTSUP | ENOMEM | EEXIST | OTHER
}
