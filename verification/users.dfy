/**
 * User accounts and the anonymous stand-in of app/models.py: role assignment
 * at construction, the permission checks, e-mail confirmation and the cached
 * avatar hash. The token decoder, the MD5 digest and the administrator
 * address come from outside and are parameters here.
 */
module Users {
  import opened Wrappers
  import opened Permit
  import opened Roles
  import opened Gravatar

  type Token = string

  /** The role a new user receives when none is supplied (`User.__init__`). */
  ghost predicate AssignedRole(supplied: Option<RoleRec>, email: string, mailAdmin: string, t: Table, r: Option<RoleRec>)
    requires WellKeyed(t)
  {
    if supplied.Some? then r == supplied
    else if email == mailAdmin then r == FindByName(t, "Administrator")
    else (r.Some? <==> exists n :: n in t && t[n].isDefault) &&
         (r.Some? ==> r.value in t.Values && r.value.isDefault)
  }

  class User {
    var id: Option<int>
    var email: string
    var role: Option<RoleRec>
    var confirmed: bool
    var avatarHash: Option<string>

    /**
     * `User(...)`: keeps a supplied role; otherwise the Administrator row for
     * the administrator address, else a row flagged default (None if the
     * table has none).
     */
    constructor(id: Option<int>, email: string, role: Option<RoleRec>, confirmed: bool,
                roles: Table, mailAdmin: string)
      requires WellKeyed(roles)
      ensures this.id == id && this.email == email && this.confirmed == confirmed
      ensures this.avatarHash == None
      ensures AssignedRole(role, email, mailAdmin, roles, this.role)
    {
      var chosen := role;
      if role.None? {
        if email == mailAdmin {
          chosen := FindByName(roles, "Administrator");
        } else {
          chosen := FirstDefault(roles);
        }
      }
      this.id := id;
      this.email := email;
      this.role := chosen;
      this.confirmed := confirmed;
      this.avatarHash := None;
    }

    /** `check_permit`: the user has a role holding every requested bit. */
    function CheckPermit(requested: Mask): (b: bool)
      reads this
      ensures b <==> role.Some? && Bits(requested) <= Bits(role.value.permit)
      ensures role.None? ==> !b
    {
      if role.None? then false
      else
        GrantsIffSubset(role.value.permit, requested);
        Grants(role.value.permit, requested)
    }

    /** `is_administerator`: the user's role holds the admin bit. */
    function IsAdministrator(): (b: bool)
      reads this
      ensures b <==> role.Some? && 7 in Bits(role.value.permit)
    {
      GrantsIffSubset(if role.Some? then role.value.permit else 0, Admin);
      assert Bits(Admin) == {7};
      CheckPermit(Admin)
    }

    /**
     * `check_token`: confirms the account when the token decodes to this
     * user's id, and reports whether it did; a mismatch changes nothing.
     */
    method CheckToken(token: Token, token2id: Token -> Option<int>) returns (ok: bool)
      modifies this`confirmed
      ensures ok <==> token2id(token) == id
      ensures confirmed == (old(confirmed) || ok)
    {
      var userId := token2id(token);
      if userId != id {
        return false;
      }
      confirmed := true;
      return true;
    }

    /**
     * `make_gravatar_url`: computes the avatar hash from the e-mail address the
     * first time only, then formats the URL from the cached hash.
     */
    method MakeGravatarUrl(md5Hex: string -> string, size: int := 80, kind: string := "retro") returns (url: string)
      modifies this`avatarHash
      ensures avatarHash == if old(avatarHash).None? then Some(md5Hex(email)) else old(avatarHash)
      ensures url == GravatarUrl(avatarHash.value, size, kind)
    {
      if avatarHash.None? {
        avatarHash := Some(md5Hex(email));
      }
      url := GravatarUrl(avatarHash.value, size, kind);
    }
  }

  /** The identity behind a request: a signed-in user or the anonymous stand-in. */
  datatype Identity = Authenticated(user: User) | Anonymous
  {
    function Footprint(): set<object>
    {
      if Authenticated? then {user} else {}
    }

    /** `check_permit` on either identity; `AnonymousUser.check_permit` always refuses. */
    function CheckPermit(requested: Mask): (b: bool)
      reads Footprint()
      ensures b <==> Authenticated? && user.role.Some? && Bits(requested) <= Bits(user.role.value.permit)
    {
      match this
      case Authenticated(u) => u.CheckPermit(requested)
      case Anonymous => false
    }
  }

  /** The anonymous stand-in refuses every request, the admin bit and the empty mask included. */
  lemma AnonymousDeniesAll(requested: Mask)
    ensures !Anonymous.CheckPermit(requested)
  {
  }

  /** A user holding the Administrator mask passes every check and is an administrator. */
  lemma AdministratorPassesAll(u: User, requested: Mask)
    requires u.role.Some? && u.role.value.permit == AdministratorMask
    ensures u.CheckPermit(requested) && u.IsAdministrator()
    ensures Authenticated(u).CheckPermit(requested)
  {
  }

  /** A user holding the User mask may not manage comments and is not an administrator. */
  lemma UserRoleLimits(u: User)
    requires u.role.Some? && u.role.value.permit == UserMask
    ensures u.CheckPermit(Follow) && u.CheckPermit(Comment) && u.CheckPermit(WriteArticle)
    ensures !u.CheckPermit(ManageComment) && !u.IsAdministrator()
  {
  }

  /**
   * A new user whose e-mail is not the administrator address, created after
   * `update_permit` on a table with no other default row, gets the User role.
   */
  lemma {:induction false} NewUserGetsUserRole(t: Table, email: string, mailAdmin: string, r: Option<RoleRec>)
    requires WellKeyed(t)
    requires forall n :: n in t && n !in Catalog ==> !t[n].isDefault
    requires email != mailAdmin
    requires AssignedRole(None, email, mailAdmin, Reconcile(t), r)
    ensures r.Some? && r.value.name == "User" && r.value.permit == UserMask && r.value.isDefault
  {
    var t' := Reconcile(t);
    ReconciledSingleDefault(t);
    assert t'["User"].isDefault;
    var n :| n in t' && t'[n] == r.value;
    assert n == "User";
  }

  /** Checking the same token again returns the same answer and leaves the account as it was. */
  method CheckTokenTwice(u: User, token: Token, token2id: Token -> Option<int>) returns (first: bool, second: bool)
    modifies u`confirmed
    ensures first == second
    ensures u.confirmed == (old(u.confirmed) || first)
  {
    first := u.CheckToken(token, token2id);
    ghost var confirmedOnce := u.confirmed;
    second := u.CheckToken(token, token2id);
    assert u.confirmed == confirmedOnce;
  }

  /** The cached hash survives a change of e-mail address: both URLs name the same avatar. */
  method GravatarSurvivesEmailChange(u: User, newEmail: string, size: int, kind: string, md5Hex: string -> string)
    returns (before: string, after: string)
    modifies u`email, u`avatarHash
    ensures u.email == newEmail
    ensures u.avatarHash == (if old(u.avatarHash).None? then Some(md5Hex(old(u.email))) else old(u.avatarHash))
    ensures before == after
  {
    before := u.MakeGravatarUrl(md5Hex, size, kind);
    u.email := newEmail;
    after := u.MakeGravatarUrl(md5Hex, size, kind);
  }

  /**
   * An account not yet given an id is confirmed by a token that fails to
   * decode, since the missing id and the missing decoded id compare equal.
   */
  method UnsavedUserAcceptsUndecodableToken(u: User, token: Token, token2id: Token -> Option<int>) returns (ok: bool)
    requires u.id.None? && token2id(token).None?
    modifies u`confirmed
    ensures ok && u.confirmed
  {
    ok := u.CheckToken(token, token2id);
  }
}
