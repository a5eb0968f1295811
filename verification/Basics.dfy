/** What several parts of the driver share: optional values and the kernel's error numbers. */
module Basics {

  datatype Option<T> = None | Some(value: T)

  const EIO := 5
  const ENOMEM := 12
  const EFAULT := 14
  const ENODEV := 19
  const EINVAL := 22
  const ENOSYS := 38
  const EPROTO := 71
  const EILSEQ := 84
  const ETIMEDOUT := 110
}
