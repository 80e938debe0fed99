/**
 The singleton lease row and the statements that touch it. Every statement runs
 in its own transaction; a statement that matches holds the row lock until the
 transaction commits or rolls back.
 */
module LeaseStore {
  import opened Common

  /** Node identifiers are only ever compared for equality. */
  type NodeId = nat

  /** The instant a released row is stamped with: expired at every clock. */
  const RELEASED := 0

  datatype Row = Row(owner: NodeId, fence: nat, expires: nat)

  datatype Request =
    | Claim(owner: NodeId, now: nat, expires: nat)
    | Renew(owner: NodeId, fence: nat, now: nat, expires: nat)
    | Release(owner: NodeId, fence: nat)
    | Write(owner: NodeId, fence: nat)

  predicate HeldBy(row: Option<Row>, owner: NodeId, fence: nat) {
    row.Some? && row.value.owner == owner && row.value.fence == fence
  }

  /** Whether the statement affects the row; only the write guard reads the live clock. */
  predicate Matches(row: Option<Row>, r: Request, clock: nat) {
    match r
    case Claim(_, now, _) => row.None? || row.value.expires <= now
    case Renew(owner, fence, now, _) => HeldBy(row, owner, fence) && row.value.expires > now
    case Release(owner, fence) => HeldBy(row, owner, fence)
    case Write(owner, fence) => HeldBy(row, owner, fence) && row.value.expires > clock
  }

  /** The row a matching statement leaves behind. */
  function After(row: Option<Row>, r: Request): Row
    requires r.Claim? || row.Some?
  {
    match r
    case Claim(owner, _, expires) => Row(owner, if row.None? then 1 else row.value.fence + 1, expires)
    case Renew(_, _, _, expires) => row.value.(expires := expires)
    case Release(_, _) => row.value.(expires := RELEASED)
    case Write(_, _) => row.value
  }
}
