/** The role gate that every controller endpoint carries as a
    `@PreAuthorize("hasRole('ROLE_...')")` annotation. Spring evaluates it
    before the endpoint body runs, so a denied call never reaches the store. */
module Authorization {

  /** The two authorities the application grants: ROLE_USER and ROLE_ADMIN. */
  datatype Role = RoleUser | RoleAdmin

  /** The five endpoints each controller exposes. */
  datatype Operation = List | Get | Create | Update | Delete {
    /** List and Get only read the store; the other three write it. */
    predicate IsRead() {
      List? || Get?
    }
  }

  /** The role named in the endpoint's `hasRole(...)` annotation. */
  function Required(op: Operation): (role: Role)
    ensures role == RoleUser <==> op.IsRead()
  {
    if op.IsRead() then RoleUser else RoleAdmin
  }

  /** `hasRole(r)` holds exactly when the caller has been granted r;
      no role implies another. */
  function Allowed(op: Operation, roles: set<Role>): (ok: bool)
    ensures roles == {} ==> !ok
    ensures op.IsRead() ==> (ok <==> RoleUser in roles)
    ensures !op.IsRead() ==> (ok <==> RoleAdmin in roles)
  {
    Required(op) in roles
  }

  /** A caller with only ROLE_USER may read but is refused every write. */
  lemma UserOnlyReads(op: Operation)
    ensures Allowed(op, {RoleUser}) <==> op.IsRead()
  {
  }

  /** A caller holding both roles, as the administrator accounts do, may
      perform every operation. */
  lemma AdminAndUserMayDoAll(op: Operation)
    ensures Allowed(op, {RoleUser, RoleAdmin})
  {
  }

  /** The policy depends only on the two roles it names: granting more
      roles never takes a permission away. */
  lemma AllowedMonotone(op: Operation, roles: set<Role>, more: set<Role>)
    requires roles <= more
    ensures Allowed(op, roles) ==> Allowed(op, more)
  {
  }
}
