# Role-based authorization of the iflasky blog, in Dafny

This project models the authorization layer of a small Flask blog (`app/models.py`, `app/decorators.py`) and proves properties of it:

- **Permission masks** (`Permit`): the five capability bits and the role catalog (`User`, `Assistant`, `Administrator`), as 8-bit masks (`bv8`). The mask test `granted & requested == requested` is proved equal to "every requested bit position is held" (`Bits(requested) <= Bits(granted)`).
- **Role table** (`Roles`): the `roles` table is a map from role name to row. `Role.update_permit` is `RoleTable.UpdatePermit`, a loop that takes the catalog names in an arbitrary order. For each name it finds or creates the row, then overwrites its mask and default flag. The loop is proved to produce `Reconcile(old table)`. `Reconcile` is shown to be idempotent and independent of the order in which names are visited. It also leaves rows outside the catalog untouched, and when no other row is flagged default it leaves exactly one default row, `User`.
- **Avatar URL** (`Gravatar`): the URL `http://www.gravatar.com/avatar/<hash>?s=<size>&d=<kind>`, with the size written as Python's `%s` writes an int. A parser reads a URL back into hash, size and kind. The round trip is proved for every hash without `?`, so it holds for every MD5 hex digest.
- **Accounts** (`Users`): a `User` class with fields `id`, `email`, `role`, `confirmed` and `avatarHash`. The constructor assigns the role. `CheckToken` confirms the account. `MakeGravatarUrl` caches the hash once. `Identity = Authenticated(User) | Anonymous` replaces the `User`/`AnonymousUser` pair, with one `CheckPermit` over both cases.
- **Guards** (`Decorators`): `require_permit` / `require_admin_permit` become functions from the identity, handler and arguments to `Outcome = Forbidden(403) | Ran(result)`.

The collaborators the source calls out to are parameters:

- `token2id` is a function value `Token -> Option<int>`. It stands for the signed-token decoder, which yields no id when decoding fails.
- the MD5 digest is a function value `string -> string`.
- the `MAIL_ADMIN` setting is a string argument.
- the current role table is passed as a map.

`User.check_token` compares the decoded id with the user's id, and both may be `None`. So an account that has no id yet is confirmed by any token that fails to decode. The model keeps this behaviour, and `Users.UnsavedUserAcceptsUndecodableToken` exhibits it. This matters only if `check_token` is called on an account that has not been stored yet; a stored account always has an id.

## Model

| member | source | states |
|---|---|---|
| `Permit.GrantsIffSubset` | app/models.py:108-109 | the mask test `permit & p == p` (the predicate `Permit.Grants`) holds exactly when every bit of `p` is held by the role's mask |
| `Permit.BitsOfUnion` | app/models.py:20-22 | a mask built with `\|` holds exactly the bits of its parts |
| `Permit.EmptyRequestGranted` | app/models.py:109 | every mask grants the empty request `0` |
| `Permit.AdministratorGrantsAll` | app/models.py:22 | the Administrator mask `0xff` holds all eight bits and grants every 8-bit request |
| `Permit.UserMaskLimits` | app/models.py:11-20 | the User mask grants follow, comment and write_article, and refuses manage_comment and admin |
| `Permit.GrantsMonotone` | app/models.py:108-109 | a mask whose bits include another's grants every request the other grants |
| `Permit.AssistantCoversUser` | app/models.py:20-21 | the Assistant mask strictly extends the User mask, so it grants all that User grants |
| `Permit.CatalogSingleDefault` | app/models.py:19-23 | in the constant `Permit.Catalog`, which holds `_roles`, exactly one entry, `User`, carries the default flag |
| `Roles.Refresh` | app/models.py:40-44 | the row written for a catalog name has the catalog's mask and default flag, and keeps the id of an existing row (none for a new row) |
| `Roles.Upsert` | app/models.py:39-45 | one loop step writes the refreshed row (catalog mask and flag, existing id kept) under that name, leaves every other row unchanged, and keeps rows filed under their own names |
| `Roles.ReconcileOn` | app/models.py:39-45 | after the steps for a set of names, each of those names holds its refreshed row, every other old row is unchanged, and the keys are the old keys plus those names |
| `Roles.Reconcile` | app/models.py:38-46 | after `update_permit` every catalog name is present with exactly its catalog mask and default flag (existing id kept), and every other row is unchanged |
| `Roles.UpsertReconciled` | app/models.py:39-45 | one more loop step extends the set of reconciled names by that name |
| `Roles.UpsertAll` | app/models.py:39-45 | running the loop body over any catalog names keeps rows filed under their own names |
| `Roles.UpsertAllFrom` | app/models.py:39-45 | running the body over a sequence of names reconciles exactly the names it contains, whatever their order and repeats |
| `Roles.AnyOrderReconciles` | app/models.py:38-46 | visiting the catalog names in any order gives the same table as `Reconcile` |
| `Roles.ReconcileIdempotent` | app/models.py:38-46 | reconciling twice gives the same table as reconciling once |
| `Roles.ReconciledSingleDefault` | app/models.py:38-46 | if no row outside the catalog is default, the reconciled table has exactly one default row, `User` |
| `Roles.FirstDefault` | app/models.py:71 | the default-role query returns a row flagged default from the table, and returns None only when no row is flagged default |
| `Roles.FindByName` | app/models.py:69 | the query by name returns the row of that name, or None when the table has none |
| `Roles.RoleTable.UpdatePermit` | app/models.py:37-46 | the loop over the catalog, in an arbitrary order, leaves the table equal to `Reconcile` of the old table |
| `Roles.UpdatePermitTwice` | app/models.py:38-46 | two runs of `update_permit` leave the table as one run does |
| `Gravatar.ShowNat` | app/models.py:123 | a non-negative size is written as a non-empty decimal numeral without leading zeros |
| `Gravatar.ParseShowNat` | app/models.py:123 | reading the decimal numeral back gives the size |
| `Gravatar.ShowInt` | app/models.py:123 | a size is written as digits, with a leading `-` when negative, and never contains `&` |
| `Gravatar.ParseShowInt` | app/models.py:123 | reading the written size back gives the size, negative sizes included |
| `Gravatar.GravatarUrl` | app/models.py:122-123 | every avatar URL begins with `http://www.gravatar.com/avatar/` |
| `Gravatar.SplitAt` | app/models.py:123 | splitting at the first separator gives a separator-free head, the separator and the rest, or None when it is absent |
| `Gravatar.SplitAtFirst` | app/models.py:123 | the first separator after a separator-free head is found |
| `Gravatar.GravatarUrlRoundTrip` | app/models.py:122-123 | hash, size and kind are read back unchanged from the URL whenever the hash holds no `?` |
| `Gravatar.HexDigestRoundTrip` | app/models.py:120-123 | for an MD5 hex digest as hash, the URL always reads back to its hash, size and kind |
| `Users.User.constructor` | app/models.py:65-71 | a supplied role is kept; otherwise the administrator address gets the `Administrator` row, any other address a row flagged default, None if there is none |
| `Users.User.CheckPermit` | app/models.py:108-109 | true exactly when the user has a role and the role holds every requested bit; a user without a role fails every check |
| `Users.User.IsAdministrator` | app/models.py:111-112 | true exactly when the user's role holds the admin bit (bit 7) |
| `Users.User.CheckToken` | app/models.py:91-97 | returns true exactly when the decoded id equals the user's id (both None counts as equal); only then `confirmed` becomes true, and nothing else changes |
| `Users.User.MakeGravatarUrl` | app/models.py:118-123 | with size 80 and kind `retro` by default, sets the hash to the digest of the e-mail only when none is cached, never changes a cached one, and returns the URL formed from the cached hash, size and kind |
| `Users.Identity.CheckPermit` | app/models.py:147-149 | an authenticated identity passes exactly when its user's role holds every requested bit; the anonymous identity never passes |
| `Users.AnonymousDeniesAll` | app/models.py:147-149 | the anonymous stand-in refuses every mask, the admin bit and `0` included |
| `Users.AdministratorPassesAll` | app/models.py:108-112 | a user with the `0xff` role passes every check and is an administrator |
| `Users.UserRoleLimits` | app/models.py:108-112 | a user with the User role may follow, comment and write, but not manage comments, and is not an administrator |
| `Users.NewUserGetsUserRole` | app/models.py:65-71 | after reconciliation, a new user with a non-administrator address and no supplied role gets the `User` row |
| `Users.CheckTokenTwice` | app/models.py:91-97 | checking the same token twice with the same decoder gives the same answer; only `confirmed` may change, and it ends as after one check |
| `Users.GravatarSurvivesEmailChange` | app/models.py:118-123 | the URL is the same before and after the e-mail address changes, because the hash is cached from the first address; only `email` and `avatarHash` may change |
| `Users.UnsavedUserAcceptsUndecodableToken` | app/models.py:91-97 | for every account without an id, every token the decoder rejects is accepted and the account becomes confirmed |
| `Decorators.RequirePermit` | app/decorators.py:8-18 | refuses with status 403 exactly when the identity lacks a requested bit; otherwise the outcome is the handler's result on the arguments, unchanged |
| `Decorators.RequireAdminPermit` | app/decorators.py:21-22 | refuses with 403 exactly when the identity is not an administrator; otherwise passes the handler's result through |
| `Decorators.AdminGuardIsPermitGuard` | app/decorators.py:21-22 | the admin guard is the permission guard for `Permit.admin` |
| `Decorators.RefusalIgnoresHandler` | app/decorators.py:12-13 | a refused request gives `Forbidden(403)` whatever the handler is, so the handler is never consulted |
| `Decorators.AnonymousAlwaysForbidden` | app/decorators.py:12-13 | the anonymous identity is refused by every guard, the admin guard included |
| `Decorators.AdministratorAlwaysRuns` | app/decorators.py:12-14 | a user with the `0xff` role passes every guard and gets the handler's result unchanged |

## Left out

- Password hashing and checking (`app/models.py:76-85`): a salted hash computed by a foreign library; the write-only getter only raises.
- Token signing and serialisation (`make_confirm_token`, the serializer in `token2id`): cryptographic and time-dependent. Only the decoder's contract is kept, as the `token2id` parameter, with failures as `None`.
- The MD5 digest itself: a parameter `md5Hex`. `Gravatar.HexDigestRoundTrip` states what follows if it yields a hex digest.
- `update_last_seen`: it only stamps the wall-clock time.
- `fake_data` for users and posts: random seed data with commit and rollback.
- `load_user`, login-manager registration, `__repr__`, the `Post` entity and column and relationship declarations: persistence and framework glue.
- Sessions and commits (`db.session.add`, `commit`): the model states the in-memory result only. Role ids assigned by the database at commit are not modelled: a new row keeps `id == None`.
- Aliasing between a user's `role` and the table row: `User.role` holds a copy of the row (a value). A later `update_permit` therefore does not show through an existing user's `role`.
- Requested masks wider than 8 bits: Python ints are unbounded, but every permission and catalog mask fits in 8 bits, and requests are modelled as `bv8`.
- `Decorators.RequirePermit`: does not state that the handler runs exactly once. A pure function can only show that the handler's result is passed through unchanged, and that a refusal does not depend on the handler.
- The ambient `current_user` and `abort`: they are an explicit `Identity` argument and the `Forbidden` outcome.
- `make_gravatar_url`'s size is an int, as its default `80` is. Other values that `%s` could format are not modelled.
- Columns that may be `None` are modelled as always present. A user whose `email` is `None` makes `make_gravatar_url` raise when it encodes the address (`app/models.py:120`). A role whose `permit` is `None` makes `check_permit` raise a `TypeError` on `None & permit` (`app/models.py:109`). Neither error path is modelled: every `User.email` is a string, and every `RoleRec.permit` is a mask.
- Users.CheckTokenTwice: uses one fixed decoder for both calls. The real `token2id` checks a maximum age (`app/models.py:101`), so a token can expire between the two calls, and then the second call fails. Time-dependent decoding is not modelled.
