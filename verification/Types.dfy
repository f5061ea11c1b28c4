/** Vocabulary shared by every part of the notification hub. */
module Types {

  type Tenant = string
  type User = string

  /** UUID of a notification record. Only equality matters. */
  type NotifyId = nat

  /** UUID primary key of a status row. Its order decides which row `First` returns. */
  type RowId = nat

  /** Wall-clock instants; 0 is the zero time of an absent watermark. */
  type Time = nat

  datatype Option<+T> = None | Some(value: T)

  datatype SenderType = FromUser | FromTenant

  datatype TargetType = Single | Multiple | Broadcast

  datatype Status = Unread | Read | Deleted
}
