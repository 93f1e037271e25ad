/** Outcomes shared by the kernel modules: error numbers, results and optional values. */
module Kernel {

  datatype Errno =
    | EINVAL | EFAULT | EADDRINUSE | EAGAIN | EBUSY | EIO | EBADF | EACCES | ENOSYS

  datatype Option<+T> = None | Some(value: T)

  /** A C function that returns a non-negative value, or a negated error number. */
  datatype Result<+T> = Ok(value: T) | Err(error: Errno)

  /** A C function that returns zero, or a negated error number. */
  datatype Status = Done | Fail(error: Errno)

  /** The index of the first entry of `s` at or after `from` that `p` accepts, or `|s|`. */
  function FirstIndex<T>(s: seq<T>, p: T -> bool, from: nat): (r: nat)
    requires from <= |s|
    ensures from <= r <= |s|
    ensures r < |s| ==> p(s[r])
    ensures forall i :: from <= i < r ==> !p(s[i])
    decreases |s| - from
  {
    if from == |s| || p(s[from]) then from else FirstIndex(s, p, from + 1)
  }
}
