/**
 * The permission-level check: `User::hasPermission` and `User::getNivel`
 * over the user's permission record, and the `permissao` route middleware
 * that either redirects or hands the request on.
 */
module Permissions {
  import opened Wrappers

  /** A row of the permissions table. Lower `nivel` means more privilege. */
  datatype Permissao = Permissao(nivel: int, nome: string, ativo: bool, deleted: bool)

  /** The part of a user the check reads: the foreign key `permissao_id`. */
  datatype User = User(id: int, permissaoId: int)

  /** The permissions table, keyed by `id`. */
  type PermissionTable = map<int, Permissao>

  /** The `permissao` relation: the row whose `id` is the user's `permissao_id`, if there is one. */
  function PermissionOf(u: User, table: PermissionTable): (r: Option<Permissao>)
    ensures r.Some? <==> u.permissaoId in table
    ensures r.Some? ==> r.value == table[u.permissaoId]
  {
    if u.permissaoId in table then Some(table[u.permissaoId]) else None
  }

  /** `hasPermission($nivelRequisitado)`: the record's level is at most the required one. */
  function HasPermission(u: User, table: PermissionTable, required: int): (b: bool)
    ensures b ==> u.permissaoId in table
  {
    match PermissionOf(u, table)
    case Some(p) => p.nivel <= required
    case None => false
  }

  /** `getNivel()`: the record's level, or 0 when there is no record. */
  function GetNivel(u: User, table: PermissionTable): (n: int)
    ensures u.permissaoId in table ==> n == table[u.permissaoId].nivel
    ensures u.permissaoId !in table ==> n == 0
  {
    match PermissionOf(u, table)
    case Some(p) => p.nivel
    case None => 0
  }

  /** Access is granted exactly when a record exists and its level is at most the required one. */
  lemma HasPermissionIff(u: User, table: PermissionTable, required: int)
    ensures HasPermission(u, table, required) <==>
              (u.permissaoId in table && table[u.permissaoId].nivel <= required)
  {
  }

  /** Without a record nothing is granted, whatever the required level. */
  lemma NoRecordNoPermission(u: User, table: PermissionTable)
    requires u.permissaoId !in table
    ensures forall required :: !HasPermission(u, table, required)
  {
  }

  /** A grant at one level is a grant at every higher level. */
  lemma HasPermissionMonotone(u: User, table: PermissionTable, n: int, m: int)
    requires n <= m && HasPermission(u, table, n)
    ensures HasPermission(u, table, m)
  {
  }

  /** A user whose record has a lower level is granted whatever a higher-level user is granted. */
  lemma LowerLevelMorePrivilege(a: User, b: User, table: PermissionTable, required: int)
    requires a.permissaoId in table && b.permissaoId in table
    requires table[a.permissaoId].nivel <= table[b.permissaoId].nivel
    requires HasPermission(b, table, required)
    ensures HasPermission(a, table, required)
  {
  }

  /** With a record, `hasPermission(n)` is `getNivel() <= n`. */
  lemma HasPermissionIsLevelComparison(u: User, table: PermissionTable, required: int)
    requires u.permissaoId in table
    ensures HasPermission(u, table, required) <==> GetNivel(u, table) <= required
  {
  }

  /**
   * Without a record the two disagree: `getNivel()` reports level 0, yet no
   * level at or above 0 is granted.
   */
  lemma MissingRecordLevelZeroWithoutAccess(u: User, table: PermissionTable, required: int)
    requires u.permissaoId !in table && 0 <= required
    ensures GetNivel(u, table) <= required && !HasPermission(u, table, required)
  {
  }

  /** Only `nivel` is read: records that agree on it give the same answer, whatever their other columns. */
  lemma OnlyNivelIsRead(u: User, t1: PermissionTable, t2: PermissionTable, required: int)
    requires (u.permissaoId in t1) == (u.permissaoId in t2)
    requires u.permissaoId in t1 ==> t1[u.permissaoId].nivel == t2[u.permissaoId].nivel
    ensures HasPermission(u, t1, required) == HasPermission(u, t2, required)
    ensures GetNivel(u, t1) == GetNivel(u, t2)
  {
  }

  /** Where a refused request is sent. */
  const DeniedPath := "/sempermissao"

  /** The flash message a refused request carries under the key `error`. */
  const DeniedMessage := "Você não tem permissão para acessar esta página."

  /** What the middleware returns: a redirect with a flash message, or the downstream response. */
  datatype Outcome<Resp> =
    | Redirect(location: string, flashKey: string, flash: string)
    | Downstream(response: Resp)

  /**
   * `ChechPermissao::handle`: a missing user or a refused level redirects to
   * the no-permission page; otherwise the request goes on to `next`.
   */
  function CheckPermission<Req, Resp>(request: Req, user: Option<User>, table: PermissionTable,
                                      next: Req -> Resp, required: int): (r: Outcome<Resp>)
    ensures r.Downstream? <==> user.Some? && HasPermission(user.value, table, required)
    ensures r.Downstream? ==> r.response == next(request)
    ensures r.Redirect? ==> r == Redirect(DeniedPath, "error", DeniedMessage)
  {
    if user.None? || !HasPermission(user.value, table, required) then
      Redirect(DeniedPath, "error", DeniedMessage)
    else
      Downstream(next(request))
  }

  /** A request passes exactly when there is a user with a record whose level is at most the required one. */
  lemma PassesIff<Req, Resp>(request: Req, user: Option<User>, table: PermissionTable,
                             next: Req -> Resp, required: int)
    ensures CheckPermission(request, user, table, next, required).Downstream? <==>
              (user.Some? && user.value.permissaoId in table && table[user.value.permissaoId].nivel <= required)
  {
    if user.Some? {
      HasPermissionIff(user.value, table, required);
    }
  }

  /** A refused request does not depend on `next`: the downstream handler plays no part in it. */
  lemma RedirectIgnoresNext<Req, Resp>(request: Req, user: Option<User>, table: PermissionTable,
                                       next1: Req -> Resp, next2: Req -> Resp, required: int)
    requires CheckPermission(request, user, table, next1, required).Redirect?
    ensures CheckPermission(request, user, table, next2, required) ==
              CheckPermission(request, user, table, next1, required)
  {
  }

  /** Behind `permissao:0` only users whose record has a level of at most 0 get through. */
  lemma AdminRoutesNeedLevelZero<Req, Resp>(request: Req, user: Option<User>, table: PermissionTable, next: Req -> Resp)
    ensures CheckPermission(request, user, table, next, 0).Downstream? <==>
              (user.Some? && user.value.permissaoId in table && table[user.value.permissaoId].nivel <= 0)
  {
    PassesIff(request, user, table, next, 0);
  }
}
