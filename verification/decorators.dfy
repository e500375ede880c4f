/**
 * The permission guards of app/decorators.py. The current identity is an
 * explicit argument, and aborting the request is the `Forbidden` outcome.
 */
module Decorators {
  import opened Permit
  import opened Users

  /** What a guarded handler yields: a refusal with its status, or the handler's own result. */
  datatype Outcome<R> = Forbidden(status: int) | Ran(result: R)

  const ForbiddenStatus: int := 403

  /**
   * `require_permit(permit)(handler)(*args)`: refuses with 403 when the
   * identity lacks the permission, else returns what the handler returns.
   */
  function RequirePermit<A, R>(permit: Mask, handler: A -> R, who: Identity, args: A): (o: Outcome<R>)
    reads who.Footprint()
    ensures o.Forbidden? <==> !(who.Authenticated? && who.user.role.Some? &&
                                Bits(permit) <= Bits(who.user.role.value.permit))
    ensures o.Forbidden? ==> o.status == ForbiddenStatus
    ensures o.Ran? ==> o.result == handler(args)
  {
    if !who.CheckPermit(permit) then Forbidden(ForbiddenStatus) else Ran(handler(args))
  }

  /** `require_admin_permit(handler)(*args)`: only an identity holding the admin bit gets through. */
  function RequireAdminPermit<A, R>(handler: A -> R, who: Identity, args: A): (o: Outcome<R>)
    reads who.Footprint()
    ensures o.Forbidden? <==> !(who.Authenticated? && who.user.IsAdministrator())
    ensures o.Forbidden? ==> o.status == ForbiddenStatus
    ensures o.Ran? ==> o.result == handler(args)
  {
    assert Bits(Admin) == {7};
    RequirePermit(Admin, handler, who, args)
  }

  /** The admin guard is the permission guard instantiated with the admin bit. */
  lemma AdminGuardIsPermitGuard<A, R>(handler: A -> R, who: Identity, args: A)
    ensures RequireAdminPermit(handler, who, args) == RequirePermit(Admin, handler, who, args)
  {
  }

  /**
   * A refused request never consults the handler: any two handlers give the
   * same outcome.
   */
  lemma RefusalIgnoresHandler<A, R>(permit: Mask, h1: A -> R, h2: A -> R, who: Identity, args: A)
    requires !who.CheckPermit(permit)
    ensures RequirePermit(permit, h1, who, args) == RequirePermit(permit, h2, who, args) == Forbidden(ForbiddenStatus)
  {
  }

  /** The anonymous identity is refused by every guard. */
  lemma AnonymousAlwaysForbidden<A, R>(permit: Mask, handler: A -> R, args: A)
    ensures RequirePermit(permit, handler, Anonymous, args) == Forbidden(ForbiddenStatus)
    ensures RequireAdminPermit(handler, Anonymous, args) == Forbidden(ForbiddenStatus)
  {
  }

  /** A user holding the Administrator mask passes every guard with the handler's result unchanged. */
  lemma AdministratorAlwaysRuns<A, R>(u: User, permit: Mask, handler: A -> R, args: A)
    requires u.role.Some? && u.role.value.permit == AdministratorMask
    ensures RequirePermit(permit, handler, Authenticated(u), args) == Ran(handler(args))
    ensures RequireAdminPermit(handler, Authenticated(u), args) == Ran(handler(args))
  {
  }
}
