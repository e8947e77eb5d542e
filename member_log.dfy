/**
 * The vocabulary shared by the member log and its index: the entries of the
 * replicated log, the keys and hashes that name things in it, and the
 * outcome of a check.
 */
module MemberLog {

  datatype Option<+T> = None | Some(value: T)

  /** Outcome of a check that returns either nothing or an error. */
  datatype Outcome<+E> = Pass | Fail(error: E)

  type Bytes = seq<bv8>

  /** A public key; two keys are `Equals` exactly when they are the same key bytes. */
  type PubKey = Bytes

  /** The string form of a log entry's content hash. */
  type Hash = string

  /** One entry of the replicated log: its content hash and its operation bytes. */
  datatype LogEntry = LogEntry(hash: Hash, value: Bytes)

  /** Errors of the classification checks. */
  datatype CheckError = GroupMemberLogWrongInviter
}
