// The error numbers the drivers return, negated, and what a transfer returns.
module Errno {
  const EPERM := 1
  const EINTR := 4
  const EAGAIN := 11
  const ENOMEM := 12
  const EFAULT := 14
  const EBUSY := 16
  const EINVAL := 22
  const ESPIPE := 29
  const ERESTARTSYS := 512

  // What a write or read that moved `moved` of `wanted` bytes returns, if nothing failed.
  function Outcome(wanted: nat, moved: nat, nonblock: bool): (ret: int)
    ensures ret == -EAGAIN <==> nonblock && 0 < wanted && moved == 0
    ensures ret == -ERESTARTSYS <==> !nonblock && 0 < wanted && moved == 0
    ensures ret != -EAGAIN && ret != -ERESTARTSYS ==> ret == moved
  {
    if moved > 0 then moved else if wanted == 0 then 0 else if nonblock then -EAGAIN else -ERESTARTSYS
  }
}
