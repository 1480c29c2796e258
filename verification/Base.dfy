// Vocabulary shared by the models of the security manager: statuses, sync states,
// certificates, permission rules and policies.
module Base {

  datatype Option<+T> = None | Some(value: T)

  datatype Status = ER_OK | ER_END_OF_DATA | ER_FAIL | ER_POLICY_NOT_NEWER | ER_BAD_ARG_1 | ER_BAD_ARG_2

  // ApplicationSyncState. Only the states SyncOk, SyncPending and SyncWillReset are ever stored.
  datatype SyncState = SyncUnknown | SyncUnmanaged | SyncOk | SyncPending | SyncWillReset | SyncReset

  // A map without one of its keys, and a list without repetition.
  function Without<K, V>(m: map<K, V>, k: K): map<K, V> { map x | x in m && x != k :: m[x] }

  predicate Distinct<T(==)>(list: seq<T>) { forall i, j :: 0 <= i < j < |list| ==> list[i] != list[j] }

  type AppKey = string
  type Guid = string

  // The two components by which the updater tells certificates apart.
  datatype CertId = CertId(serial: string, authorityKeyId: string)

  // A member of a permission rule: method, signal or property, with an action mask.
  datatype Member = Member(name: string, memberType: int, mask: bv8)

  datatype Rule = Rule(interfaceName: string, objPath: string, members: seq<Member>)

  datatype Acl = Acl(peers: seq<string>, rules: seq<Rule>)

  // Policy versions are 32-bit and wrap around.
  const UINT32_MODULUS := 0x1_0000_0000

  datatype Policy = Policy(version: nat, acls: seq<Acl>)

  // A device that was claimed but never received a policy reports version 0.
  const DEFAULT_POLICY := Policy(0, [])

  function NextVersion(version: nat): (next: nat)
    ensures version < UINT32_MODULUS - 1 ==> next == version + 1
    ensures version == UINT32_MODULUS - 1 ==> next == 0
  {
    (version + 1) % UINT32_MODULUS
  }

  // The version of a policy that may be absent; a default-constructed policy has version 0.
  function VersionOf(policy: Option<Policy>): nat {
    if policy.Some? then policy.value.version else 0
  }

  // The version rule of UpdatePolicy: version 0 asks for the next one, any other version must be newer and
  // is kept.
  function Versioned(stored: Option<Policy>, requested: Policy): (accepted: Option<Policy>)
    ensures accepted.None? <==> 0 < requested.version <= VersionOf(stored)
    ensures requested.version != 0 && accepted.Some? ==> accepted.value == requested
    ensures requested.version == 0 ==> accepted == Some(Policy(NextVersion(VersionOf(stored)), requested.acls))
  {
    if requested.version == 0 then Some(requested.(version := NextVersion(VersionOf(stored))))
    else if VersionOf(stored) >= requested.version then None
    else Some(requested)
  }

  // ---------------------------------------------------------------- decisions taken under the update lock

  // What UpdatesCompleted does for an updater that ends with state `st` in transaction `tid`, given the
  // stored state and the update counter. `writes` tells whether the database write it needs succeeds.
  datatype Completion = RowRemoved | Restarted | Persisted | NothingDone

  function Completed(row: Option<SyncState>, counter: nat, st: SyncState, tid: nat, writes: bool): Completion {
    match st
    case SyncReset => if writes then RowRemoved else NothingDone
    case SyncOk =>
      if row.None? then NothingDone
      else if tid != counter then Restarted
      else if writes then Persisted
      else NothingDone
    case _ => NothingDone
  }

  // The state that ApplicationUpdated leaves behind; it writes the row only when that is a new state.
  function AnnouncedState(st: SyncState): SyncState { if st.SyncOk? then SyncPending else st }
}
