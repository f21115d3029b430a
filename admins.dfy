/** Admins: a table of Telegram users with a permission bit mask, a level
    scope and a soft-delete flag, plus the owner from the configuration who
    passes every check. */
module Admins {
  import opened Wrappers
  import opened Seqs
  import Text

  // ----- permission bits

  function Pow2(k: nat): (p: nat)
    ensures p >= 1
  {
    if k == 0 then 1 else 2 * Pow2(k - 1)
  }

  /** Bit `k` of `m`. */
  predicate Bit(m: nat, k: nat) {
    if k == 0 then m % 2 == 1 else Bit(m / 2, k - 1)
  }

  /** Python's `&` on non-negative integers. */
  function BitAnd(a: nat, b: nat): (r: nat)
    decreases a
  {
    if a == 0 || b == 0 then 0
    else 2 * BitAnd(a / 2, b / 2) + (if a % 2 == 1 && b % 2 == 1 then 1 else 0)
  }

  const ManageGroups: nat := 1
  const UploadContent: nat := 2
  const ApproveContent: nat := 4
  const ManageAdmins: nat := 8

  /** `FULL_ACCESS = (1 << 31) - 1`. */
  const FullAccess: nat := 0x7FFF_FFFF

  /** The flags are the bits 0 to 3, and `FULL_ACCESS` is `2^31 - 1`. */
  lemma FlagValues()
    ensures ManageGroups == Pow2(0) && UploadContent == Pow2(1) && ApproveContent == Pow2(2) && ManageAdmins == Pow2(3)
    ensures FullAccess == Pow2(31) - 1
  {
    Pow2Add(8, 8);
    Pow2Add(16, 15);
    Pow2Add(8, 7);
    assert Pow2(8) == 256 && Pow2(7) == 128;
  }

  lemma {:induction false} Pow2Add(a: nat, b: nat)
    ensures Pow2(a + b) == Pow2(a) * Pow2(b)
  {
    if a > 0 {
      Pow2Add(a - 1, b);
    }
  }

  lemma {:induction false} NoBitOfZero(k: nat)
    ensures !Bit(0, k)
  {
    if k > 0 {
      NoBitOfZero(k - 1);
    }
  }

  /** Masking with a single bit is non-zero exactly when the mask has it. */
  lemma {:induction false} AndFlag(m: nat, k: nat)
    ensures BitAnd(m, Pow2(k)) != 0 <==> Bit(m, k)
  {
    if m == 0 {
      NoBitOfZero(k);
    } else if k > 0 {
      assert Pow2(k) / 2 == Pow2(k - 1) && Pow2(k) % 2 == 0;
      AndFlag(m / 2, k - 1);
    }
  }

  /** A single bit has no other bit set. */
  lemma {:induction false} FlagBits(j: nat, k: nat)
    ensures Bit(Pow2(j), k) <==> j == k
  {
    if j == 0 {
      if k > 0 {
        NoBitOfZero(k - 1);
      }
    } else if k == 0 {
      assert Pow2(j) % 2 == 0;
    } else {
      assert Pow2(j) / 2 == Pow2(j - 1);
      FlagBits(j - 1, k - 1);
    }
  }

  /** `2^n - 1` has every bit below `n` set and none above. */
  lemma {:induction false} AllOnesBits(n: nat, k: nat)
    ensures Bit(Pow2(n) - 1, k) <==> k < n
  {
    if n == 0 {
      NoBitOfZero(k);
    } else if k > 0 {
      assert (Pow2(n) - 1) / 2 == Pow2(n - 1) - 1;
      AllOnesBits(n - 1, k - 1);
    }
  }

  /** The four flags are distinct single bits, each within `FULL_ACCESS`,
      and no two share a bit. */
  lemma FlagsWithinFullAccess()
    ensures forall k: nat :: k < 31 ==> BitAnd(FullAccess, Pow2(k)) != 0
    ensures forall j: nat, k: nat :: j != k ==> BitAnd(Pow2(j), Pow2(k)) == 0
  {
    FlagValues();
    forall k: nat | k < 31 ensures BitAnd(FullAccess, Pow2(k)) != 0 {
      AllOnesBits(31, k);
      AndFlag(FullAccess, k);
    }
    forall j: nat, k: nat | j != k ensures BitAnd(Pow2(j), Pow2(k)) == 0 {
      FlagBits(j, k);
      AndFlag(Pow2(j), k);
    }
  }

  // ----- the admins table

  /** `OWNER_TG_ID` and `ADMIN_USER_IDS` from the environment. */
  datatype Config = Config(ownerId: Option<int>, adminUserIds: seq<int>)

  /** A row of `admins`; `tg_user_id` is unique and `is_active` is 1 for a
      current admin. */
  datatype AdminRow = AdminRow(id: int, tgUserId: int, name: string, role: string, mask: nat,
                               levelScope: string, isActive: int)

  ghost predicate RowsValid(rows: seq<AdminRow>, nextId: int) {
    KeysDistinct(rows, (a: AdminRow) => a.id) && KeysDistinct(rows, (a: AdminRow) => a.tgUserId)
    && forall a :: a in rows ==> a.id < nextId
  }

  /** The upsert on `tg_user_id` keeps the table valid, the next id moving
      on only when a row is added, and the user reads back as the updated
      or the new row. */
  lemma AdminUpsert(rows: seq<AdminRow>, nextId: int, user: int, update: AdminRow -> AdminRow, newRow: AdminRow)
    requires RowsValid(rows, nextId)
    requires forall x: AdminRow :: x.id == update(x).id && x.tgUserId == update(x).tgUserId
    requires newRow.id == nextId && newRow.tgUserId == user
    ensures var after, found := Upsert(rows, UserIs(user), update, newRow), First(rows, UserIs(user));
      RowsValid(after, if found.Some? then nextId else nextId + 1)
      && First(after, UserIs(user)) == Some(if found.Some? then update(found.value) else newRow)
  {
    var after := Upsert(rows, UserIs(user), update, newRow);
    UpsertReadBack(rows, UserIs(user), update, newRow);
    UpsertKeysDistinct(rows, UserIs(user), update, newRow, (a: AdminRow) => a.id);
    UpsertKeysDistinct(rows, UserIs(user), update, newRow, (a: AdminRow) => a.tgUserId);
    var bound := if First(rows, UserIs(user)).Some? then nextId else nextId + 1;
    forall y | y in after ensures y.id < bound {
      UpsertRows(rows, UserIs(user), update, newRow, y);
    }
  }

  /** `is_owner(user_id)`: an owner is configured and it is this user. */
  predicate IsOwner(cfg: Config, user: Option<int>) {
    cfg.ownerId.Some? && user == cfg.ownerId
  }

  function UserIs(user: int): AdminRow -> bool {
    (a: AdminRow) => a.tgUserId == user
  }

  function ActiveUserIs(user: int): AdminRow -> bool {
    (a: AdminRow) => a.tgUserId == user && a.isActive == 1
  }

  /** The active row of a user: what the queries `WHERE tg_user_id=? AND
      is_active=1` find. */
  function ActiveRow(rows: seq<AdminRow>, user: int): (r: Option<AdminRow>)
    ensures r.Some? ==> r.value in rows && r.value.tgUserId == user && r.value.isActive == 1
    ensures r.None? <==> forall a :: a in rows && a.tgUserId == user ==> a.isActive != 1
  {
    First(rows, ActiveUserIs(user))
  }

  /** `has_perm(user_id, perm)`: the owner always passes, no user never does,
      anyone else needs an active row whose mask shares a bit with `perm`. */
  function HasPerm(cfg: Config, rows: seq<AdminRow>, user: Option<int>, perm: nat): (b: bool)
    ensures IsOwner(cfg, user) ==> b
    ensures user.None? ==> b == IsOwner(cfg, user)
    ensures !IsOwner(cfg, user) && user.Some? ==>
      (b <==> ActiveRow(rows, user.value).Some? && BitAnd(ActiveRow(rows, user.value).value.mask, perm) != 0)
  {
    if IsOwner(cfg, user) then true
    else if user.None? then false
    else
      var row := ActiveRow(rows, user.value);
      row.Some? && BitAnd(row.value.mask, perm) != 0
  }

  /** For one of the flags, `has_perm` reads that bit of the active mask. */
  lemma HasFlag(cfg: Config, rows: seq<AdminRow>, user: int, k: nat)
    requires !IsOwner(cfg, Some(user))
    ensures HasPerm(cfg, rows, Some(user), Pow2(k)) <==> ActiveRow(rows, user).Some? && Bit(ActiveRow(rows, user).value.mask, k)
  {
    if ActiveRow(rows, user).Some? {
      AndFlag(ActiveRow(rows, user).value.mask, k);
    }
  }

  /** What `get_admin` and `list_admins` show of a row. */
  function AdminView(a: AdminRow): (int, string, nat, string) {
    (a.tgUserId, a.name, a.mask, a.levelScope)
  }

  function IsActive(a: AdminRow): bool { a.isActive == 1 }

  /** `list_admins()`: the active admins, in table order. */
  function ListAdmins(rows: seq<AdminRow>): (r: seq<(int, string, nat, string)>)
    ensures forall v :: v in r <==> exists a :: a in rows && a.isActive == 1 && v == AdminView(a)
  {
    MapMembers(Filter(rows, IsActive), AdminView);
    Map(Filter(rows, IsActive), AdminView)
  }

  /** `get_admin(tg_user_id)`: the active row of that user, if any. */
  function GetAdmin(rows: seq<AdminRow>, user: int): (r: Option<(int, string, nat, string)>)
    ensures r.None? <==> forall a :: a in rows && a.tgUserId == user ==> a.isActive != 1
    ensures r.Some? ==> exists a :: a in rows && a.tgUserId == user && a.isActive == 1 && r.value == AdminView(a)
  {
    match ActiveRow(rows, user)
    case None => None
    case Some(a) => Some(AdminView(a))
  }

  /** `get_admin_with_permissions(tg_user_id)`: an active row gives its id
      and mask; otherwise the owner gets `(0, FULL_ACCESS)`; anyone else
      `None`. */
  function GetAdminWithPermissions(cfg: Config, rows: seq<AdminRow>, user: int): (r: Option<(int, nat)>)
    ensures ActiveRow(rows, user).Some? ==> r == Some((ActiveRow(rows, user).value.id, ActiveRow(rows, user).value.mask))
    ensures ActiveRow(rows, user).None? ==> (r.Some? <==> IsOwner(cfg, Some(user)))
    ensures ActiveRow(rows, user).None? && r.Some? ==> r.value == (0, FullAccess)
  {
    match ActiveRow(rows, user)
    case Some(a) => Some((a.id, a.mask))
    case None => if cfg.ownerId.Some? && user == cfg.ownerId.value then Some((0, FullAccess)) else None
  }

  /** `get_admin_id_by_tg_user(tg_user_id)`: the id of the active row. */
  function GetAdminIdByTgUser(rows: seq<AdminRow>, user: int): (r: Option<int>)
    ensures r.None? <==> ActiveRow(rows, user).None?
    ensures r.Some? ==> exists a :: a in rows && a.tgUserId == user && a.isActive == 1 && r.value == a.id
  {
    match ActiveRow(rows, user)
    case None => None
    case Some(a) => Some(a.id)
  }

  /** The scope test of `is_admin`: `"all"` or the level written in
      decimal. */
  predicate ScopeAllows(scope: string, level: Option<int>) {
    level.None? || scope == "all" || scope == Text.IntToString(level.value)
  }

  /** `is_admin(tg_user_id, permission, level_id)`. The owner is treated as
      an active admin with full access and scope `all`; a user without a row,
      or whose row is inactive, is an admin exactly when listed in
      `ADMIN_USER_IDS`, with no further check; otherwise a non-zero
      `permission` must share a bit with the mask and a given level must be
      allowed by the scope. */
  function IsAdmin(cfg: Config, rows: seq<AdminRow>, user: int, permission: Option<nat>, level: Option<int>): (b: bool)
    ensures var row := First(rows, UserIs(user));
      !IsOwner(cfg, Some(user)) && !(row.Some? && row.value.isActive == 1) ==> (b <==> user in cfg.adminUserIds)
    ensures var row := First(rows, UserIs(user));
      IsOwner(cfg, Some(user)) || (row.Some? && row.value.isActive == 1) ==>
        var (mask, scope) := if IsOwner(cfg, Some(user)) then (FullAccess, "all") else (row.value.mask, row.value.levelScope);
        (b <==> (permission.None? || permission.value == 0 || BitAnd(mask, permission.value) != 0) && ScopeAllows(scope, level))
  {
    var row := First(rows, UserIs(user));
    if !(cfg.ownerId.Some? && user == cfg.ownerId.value) && !(row.Some? && row.value.isActive == 1) then
      user in cfg.adminUserIds
    else
      var (mask, scope) := if cfg.ownerId.Some? && user == cfg.ownerId.value then (FullAccess, "all")
                           else (row.value.mask, row.value.levelScope);
      if permission.Some? && permission.value != 0 && BitAnd(mask, permission.value) == 0 then false
      else if level.Some? && !(scope == "all" || scope == Text.IntToString(level.value)) then false
      else true
  }

  /** The owner passes `is_admin` for every flag and every level. */
  lemma OwnerIsAdmin(cfg: Config, rows: seq<AdminRow>, k: nat, level: Option<int>)
    requires cfg.ownerId.Some? && k < 31
    ensures IsAdmin(cfg, rows, cfg.ownerId.value, Some(Pow2(k)), level)
  {
    FlagsWithinFullAccess();
  }

  /** The `DO UPDATE SET` of `add_admin`: the role is kept. */
  function SetAdmin(name: string, mask: nat, scope: string): AdminRow -> AdminRow {
    (a: AdminRow) => a.(name := name, mask := mask, levelScope := scope, isActive := 1)
  }

  /** The `DO UPDATE SET` of `ensure_owner_full_perms`. */
  function SetOwner(): AdminRow -> AdminRow {
    (a: AdminRow) => a.(name := "OWNER", role := "OWNER", mask := FullAccess, levelScope := "all", isActive := 1)
  }

  /** The `admins` table. */
  class AdminStore {
    var rows: seq<AdminRow>
    var nextId: int

    ghost predicate Valid() reads this {
      RowsValid(rows, nextId)
    }

    constructor ()
      ensures Valid() && rows == []
    {
      rows, nextId := [], 1;
    }

    /** The shared upsert on `tg_user_id`. */
    method UpsertAdmin(user: int, update: AdminRow -> AdminRow, newRow: AdminRow)
      requires Valid()
      requires forall x: AdminRow :: x.id == update(x).id && x.tgUserId == update(x).tgUserId
      requires newRow.id == nextId && newRow.tgUserId == user
      modifies this
      ensures Valid()
      ensures rows == Upsert(old(rows), UserIs(user), update, newRow)
      ensures old(First(rows, UserIs(user))).Some? ==> nextId == old(nextId)
      ensures old(First(rows, UserIs(user))).None? ==> nextId == old(nextId) + 1
      ensures First(rows, UserIs(user))
        == Some(if old(First(rows, UserIs(user))).Some? then update(old(First(rows, UserIs(user))).value) else newRow)
    {
      var existing := First(rows, UserIs(user));
      var updated := Upsert(rows, UserIs(user), update, newRow);
      AdminUpsert(rows, nextId, user, update, newRow);
      rows := updated;
      if existing.None? {
        nextId := nextId + 1;
      }
    }

    /** `ensure_owner_full_perms(owner_id)`: nothing without an owner;
        otherwise the owner's row is `OWNER` with full access, scope `all`,
        active. */
    method EnsureOwnerFullPerms(owner: Option<int>)
      requires Valid()
      modifies this
      ensures Valid()
      ensures owner.None? ==> rows == old(rows) && nextId == old(nextId)
      ensures owner.Some? ==>
        rows == Upsert(old(rows), UserIs(owner.value), SetOwner(),
                       AdminRow(old(nextId), owner.value, "OWNER", "OWNER", FullAccess, "all", 1))
      ensures owner.Some? ==> exists id :: ActiveRow(rows, owner.value) == Some(AdminRow(id, owner.value, "OWNER", "OWNER", FullAccess, "all", 1))
    {
      if owner.None? {
        return;
      }
      UpsertAdmin(owner.value, SetOwner(), AdminRow(nextId, owner.value, "OWNER", "OWNER", FullAccess, "all", 1));
      ActiveIsUserRow(rows, nextId, owner.value);
    }

    /** `add_admin(tg_user_id, name, permissions_mask, level_scope)`: a new
        user gets an `ADMIN` row; an existing one, active or not, is
        reactivated with the new name, mask and scope and keeps its role. */
    method AddAdmin(user: int, name: string, mask: nat, scope: string)
      requires Valid()
      modifies this
      ensures Valid()
      ensures rows == Upsert(old(rows), UserIs(user), SetAdmin(name, mask, scope),
                             AdminRow(old(nextId), user, name, "ADMIN", mask, scope, 1))
      ensures GetAdmin(rows, user) == Some((user, name, mask, scope))
    {
      UpsertAdmin(user, SetAdmin(name, mask, scope), AdminRow(nextId, user, name, "ADMIN", mask, scope, 1));
      ActiveIsUserRow(rows, nextId, user);
    }

    /** Rewrites the rows of a user by `f`, which keeps ids and users. */
    method RewriteUser(user: int, f: AdminRow -> AdminRow)
      requires Valid()
      requires forall x: AdminRow :: x.id == f(x).id && x.tgUserId == f(x).tgUserId
      modifies this
      ensures Valid() && nextId == old(nextId)
      ensures rows == Map(old(rows), (a: AdminRow) => if a.tgUserId == user then f(a) else a)
    {
      var g := (a: AdminRow) => if a.tgUserId == user then f(a) else a;
      var updated := Map(rows, g);
      KeysDistinctRewrite(rows, updated, (a: AdminRow) => a.id);
      KeysDistinctRewrite(rows, updated, (a: AdminRow) => a.tgUserId);
      forall x | x in updated ensures x.id < nextId {
        var k :| 0 <= k < |updated| && updated[k] == x;
        assert rows[k] in rows;
      }
      rows := updated;
    }

    /** `update_admin(tg_user_id, name, permissions_mask, level_scope)`: the
        user's row, active or not, gets the new name, mask and scope; no row
        is added. */
    method UpdateAdmin(user: int, name: string, mask: nat, scope: string)
      requires Valid()
      modifies this
      ensures Valid() && nextId == old(nextId)
      ensures rows == Map(old(rows), (a: AdminRow) => if a.tgUserId == user then a.(name := name, mask := mask, levelScope := scope) else a)
    {
      RewriteUser(user, (a: AdminRow) => a.(name := name, mask := mask, levelScope := scope));
    }

    /** `remove_admin(tg_user_id)`: a soft delete. The row stays but is
        inactive, so the user no longer has any permission unless owner. */
    method RemoveAdmin(user: int, cfg: Config)
      requires Valid()
      modifies this
      ensures Valid() && nextId == old(nextId)
      ensures rows == Map(old(rows), (a: AdminRow) => if a.tgUserId == user then a.(isActive := 0) else a)
      ensures GetAdmin(rows, user).None? && GetAdminIdByTgUser(rows, user).None?
      ensures forall perm: nat :: HasPerm(cfg, rows, Some(user), perm) == IsOwner(cfg, Some(user))
    {
      RewriteUser(user, (a: AdminRow) => a.(isActive := 0));
      forall a | a in rows && a.tgUserId == user ensures a.isActive != 1 {
        var k :| 0 <= k < |rows| && rows[k] == a;
      }
    }
  }

  /** With one row per user, a user whose row is active has that row as
      its active row. */
  lemma ActiveIsUserRow(rows: seq<AdminRow>, nextId: int, user: int)
    requires RowsValid(rows, nextId)
    requires First(rows, UserIs(user)).Some? && First(rows, UserIs(user)).value.isActive == 1
    ensures ActiveRow(rows, user) == First(rows, UserIs(user))
  {
    var a := First(rows, UserIs(user)).value;
    forall b | b in rows && ActiveUserIs(user)(b) ensures b == a {
      KeyIdentifies(rows, (x: AdminRow) => x.tgUserId, a, b);
    }
    FirstOnly(rows, ActiveUserIs(user), a);
  }
}
