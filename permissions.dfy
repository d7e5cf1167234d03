/**
 * The permissions store: one row of settings per permissions id (shared by
 * the chats that point at it), read with the defaults filled in and
 * patched field by field.
 *
 * The defaults and the two key lists the reads copy are configuration
 * defined elsewhere; they are fixed when the store is made. Stored flags
 * are kept as booleans, so the integer-to-boolean conversion of a read is
 * the identity here.
 */
module Permissions {
  import opened Wrappers

  type PermissionsId = string

  /** Every permission, with the flags first and the disappearing-message timeout last. */
  datatype PermissionsStrict = PermissionsStrict(
    autoDownload: bool,
    contactSharing: bool,
    displayPicture: bool,
    notifications: bool,
    readReceipts: bool,
    focus: bool,
    favourite: bool,
    calling: bool,
    disappearingMessages: int)

  /** A stored row. */
  datatype PermissionsEntry = PermissionsEntry(permissionsId: PermissionsId, permissions: PermissionsStrict)

  type PermissionsTable = map<PermissionsId, PermissionsStrict>

  datatype BooleanKey = AutoDownload | ContactSharing | DisplayPicture | Notifications | ReadReceipts | Focus | Favourite | Calling
  datatype NumberKey = DisappearingMessages

  function GetBool(p: PermissionsStrict, key: BooleanKey): (value: bool) {
    match key
    case AutoDownload => p.autoDownload
    case ContactSharing => p.contactSharing
    case DisplayPicture => p.displayPicture
    case Notifications => p.notifications
    case ReadReceipts => p.readReceipts
    case Focus => p.focus
    case Favourite => p.favourite
    case Calling => p.calling
  }

  function GetNumber(p: PermissionsStrict, key: NumberKey): (value: int) {
    match key
    case DisappearingMessages => p.disappearingMessages
  }

  /** `match[key] = value` for a flag: that flag changes and nothing else. */
  function SetBool(p: PermissionsStrict, key: BooleanKey, value: bool): (r: PermissionsStrict)
    ensures GetBool(r, key) == value
    ensures forall other :: other != key ==> GetBool(r, other) == GetBool(p, other)
    ensures forall n :: GetNumber(r, n) == GetNumber(p, n)
  {
    match key
    case AutoDownload => p.(autoDownload := value)
    case ContactSharing => p.(contactSharing := value)
    case DisplayPicture => p.(displayPicture := value)
    case Notifications => p.(notifications := value)
    case ReadReceipts => p.(readReceipts := value)
    case Focus => p.(focus := value)
    case Favourite => p.(favourite := value)
    case Calling => p.(calling := value)
  }

  function SetNumber(p: PermissionsStrict, key: NumberKey, value: int): (r: PermissionsStrict)
    ensures GetNumber(r, key) == value
    ensures forall other :: other != key ==> GetNumber(r, other) == GetNumber(p, other)
    ensures forall b :: GetBool(r, b) == GetBool(p, b)
  {
    match key
    case DisappearingMessages => p.(disappearingMessages := value)
  }

  /** Two permission values are equal when they agree on every key. */
  lemma Extensionality(p: PermissionsStrict, q: PermissionsStrict)
    requires forall b :: GetBool(p, b) == GetBool(q, b)
    requires forall n :: GetNumber(p, n) == GetNumber(q, n)
    ensures p == q
  {
    assert GetBool(p, AutoDownload) == GetBool(q, AutoDownload);
    assert GetBool(p, ContactSharing) == GetBool(q, ContactSharing);
    assert GetBool(p, DisplayPicture) == GetBool(q, DisplayPicture);
    assert GetBool(p, Notifications) == GetBool(q, Notifications);
    assert GetBool(p, ReadReceipts) == GetBool(q, ReadReceipts);
    assert GetBool(p, Focus) == GetBool(q, Focus);
    assert GetBool(p, Favourite) == GetBool(q, Favourite);
    assert GetBool(p, Calling) == GetBool(q, Calling);
    assert GetNumber(p, DisappearingMessages) == GetNumber(q, DisappearingMessages);
  }

  /**
   * `base` with the listed keys taken from `row`: the result of the two
   * `forEach` passes of a read.
   */
  ghost predicate IsFilled(base: PermissionsStrict, row: PermissionsStrict, booleanKeys: seq<BooleanKey>,
                           numberKeys: seq<NumberKey>, r: PermissionsStrict) {
    && (forall b :: GetBool(r, b) == if b in booleanKeys then GetBool(row, b) else GetBool(base, b))
    && (forall n :: GetNumber(r, n) == if n in numberKeys then GetNumber(row, n) else GetNumber(base, n))
  }

  /** The key lists name every key. */
  predicate CoversAllKeys(booleanKeys: seq<BooleanKey>, numberKeys: seq<NumberKey>) {
    (forall b: BooleanKey :: b in booleanKeys) && (forall n: NumberKey :: n in numberKeys)
  }

  /** With key lists that name every key, a filled read is the stored row itself. */
  lemma FilledIsRow(base: PermissionsStrict, row: PermissionsStrict, booleanKeys: seq<BooleanKey>,
                    numberKeys: seq<NumberKey>, r: PermissionsStrict)
    requires CoversAllKeys(booleanKeys, numberKeys)
    requires IsFilled(base, row, booleanKeys, numberKeys, r)
    ensures r == row
  {
    Extensionality(r, row);
  }

  // ---------------------------------------------------------------- statements

  /** `INSERT INTO permissions`; an entry already stored under the id rejects it. */
  function InsertEntry(t: PermissionsTable, e: PermissionsEntry): (t': PermissionsTable)
    ensures e.permissionsId in t ==> t' == t
    ensures e.permissionsId !in t ==> t'.Keys == t.Keys + {e.permissionsId} && t'[e.permissionsId] == e.permissions
    ensures forall id :: id in t ==> id in t' && t'[id] == t[id]
  {
    if e.permissionsId in t then t else t[e.permissionsId := e.permissions]
  }

  /** A partial update: `None` leaves the field as it is. */
  datatype Permissions = Permissions(
    notifications: Option<bool>,
    autoDownload: Option<bool>,
    displayPicture: Option<bool>,
    contactSharing: Option<bool>,
    disappearingMessages: Option<int>,
    readReceipts: Option<bool>,
    focus: Option<bool>,
    favourite: Option<bool>,
    calling: Option<bool>)

  function UpdateBool(u: Permissions, key: BooleanKey): (value: Option<bool>) {
    match key
    case AutoDownload => u.autoDownload
    case ContactSharing => u.contactSharing
    case DisplayPicture => u.displayPicture
    case Notifications => u.notifications
    case ReadReceipts => u.readReceipts
    case Focus => u.focus
    case Favourite => u.favourite
    case Calling => u.calling
  }

  /** Each field becomes `COALESCE(supplied, stored)`. */
  function ApplyPermissionsUpdate(p: PermissionsStrict, u: Permissions): (r: PermissionsStrict)
    // a field the patch leaves out keeps its stored value
    ensures forall b :: UpdateBool(u, b).None? ==> GetBool(r, b) == GetBool(p, b)
    ensures u.disappearingMessages.None? ==> r.disappearingMessages == p.disappearingMessages
  {
    PermissionsStrict(
      u.autoDownload.GetOr(p.autoDownload),
      u.contactSharing.GetOr(p.contactSharing),
      u.displayPicture.GetOr(p.displayPicture),
      u.notifications.GetOr(p.notifications),
      u.readReceipts.GetOr(p.readReceipts),
      u.focus.GetOr(p.focus),
      u.favourite.GetOr(p.favourite),
      u.calling.GetOr(p.calling),
      u.disappearingMessages.GetOr(p.disappearingMessages))
  }

  /** Each flag takes the supplied value when there is one and keeps its own otherwise; so does the timeout. */
  lemma UpdateReplacesSuppliedFields(p: PermissionsStrict, u: Permissions, b: BooleanKey)
    ensures GetBool(ApplyPermissionsUpdate(p, u), b) == if UpdateBool(u, b).Some? then UpdateBool(u, b).value else GetBool(p, b)
    ensures ApplyPermissionsUpdate(p, u).disappearingMessages ==
              if u.disappearingMessages.Some? then u.disappearingMessages.value else p.disappearingMessages
  {
  }

  /** An update that supplies nothing leaves the permissions as they are; repeating one changes nothing more. */
  lemma UpdateLaws(p: PermissionsStrict, u: Permissions)
    ensures ApplyPermissionsUpdate(p, Permissions(None, None, None, None, None, None, None, None, None)) == p
    ensures ApplyPermissionsUpdate(ApplyPermissionsUpdate(p, u), u) == ApplyPermissionsUpdate(p, u)
  {
  }

  /** `UPDATE permissions ... WHERE permissionsId = ?`: only that row, if present. */
  function UpdateEntry(t: PermissionsTable, id: PermissionsId, u: Permissions): (t': PermissionsTable)
    ensures t'.Keys == t.Keys
    ensures forall other :: other in t && other != id ==> t'[other] == t[other]
    ensures id in t ==> t'[id] == ApplyPermissionsUpdate(t[id], u)
  {
    if id in t then t[id := ApplyPermissionsUpdate(t[id], u)] else t
  }

  /** `DELETE FROM permissions WHERE permissionsId = ?`. */
  function DeleteEntry(t: PermissionsTable, id: PermissionsId): (t': PermissionsTable)
    ensures t'.Keys == t.Keys - {id}
    ensures forall other :: other in t' ==> t'[other] == t[other]
  {
    t - {id}
  }

  // ---------------------------------------------------------------- the store

  class PermissionsStore {
    const defaults: PermissionsStrict
    const booleanKeys: seq<BooleanKey>
    const numberKeys: seq<NumberKey>
    var table: PermissionsTable

    constructor (defaults: PermissionsStrict, booleanKeys: seq<BooleanKey>, numberKeys: seq<NumberKey>)
      ensures this.defaults == defaults && this.booleanKeys == booleanKeys && this.numberKeys == numberKeys
      ensures table == map[]
    {
      this.defaults := defaults;
      this.booleanKeys := booleanKeys;
      this.numberKeys := numberKeys;
      table := map[];
    }

    /** `addPermissionEntry`. */
    method AddPermissionEntry(e: PermissionsEntry) returns (inserted: bool)
      modifies this
      ensures inserted <==> e.permissionsId !in old(table)
      ensures table == InsertEntry(old(table), e)
    {
      inserted := e.permissionsId !in table;
      table := InsertEntry(table, e);
    }

    /** The two `forEach` passes: copies the listed keys of `row` over `base`. */
    method CopyKeys(base: PermissionsStrict, row: PermissionsStrict) returns (r: PermissionsStrict)
      ensures IsFilled(base, row, booleanKeys, numberKeys, r)
    {
      r := base;
      for i := 0 to |booleanKeys|
        invariant forall b :: GetBool(r, b) == if b in booleanKeys[..i] then GetBool(row, b) else GetBool(base, b)
        invariant forall n :: GetNumber(r, n) == GetNumber(base, n)
      {
        r := SetBool(r, booleanKeys[i], GetBool(row, booleanKeys[i]));
        assert booleanKeys[..i + 1] == booleanKeys[..i] + [booleanKeys[i]];
      }
      assert booleanKeys[..|booleanKeys|] == booleanKeys;
      ghost var flags := r;
      for i := 0 to |numberKeys|
        invariant forall b :: GetBool(r, b) == GetBool(flags, b)
        invariant forall n :: GetNumber(r, n) == if n in numberKeys[..i] then GetNumber(row, n) else GetNumber(base, n)
      {
        r := SetNumber(r, numberKeys[i], GetNumber(row, numberKeys[i]));
        assert numberKeys[..i + 1] == numberKeys[..i] + [numberKeys[i]];
      }
      assert numberKeys[..|numberKeys|] == numberKeys;
    }

    /**
     * `getPermissions`: the defaults for the empty id or an id with no row,
     * and otherwise the defaults overlaid with the row's listed keys.
     */
    method GetPermissions(permissionsId: PermissionsId) returns (filled: PermissionsStrict)
      ensures permissionsId == "" || permissionsId !in table ==> filled == defaults
      ensures permissionsId != "" && permissionsId in table ==>
                IsFilled(defaults, table[permissionsId], booleanKeys, numberKeys, filled)
    {
      filled := defaults;
      if permissionsId == "" {
        return;
      }
      if permissionsId in table {
        filled := CopyKeys(filled, table[permissionsId]);
      }
    }

    /** `getAllPermissions`: one filled entry per stored row, each once. */
    method GetAllPermissions() returns (permissions: seq<PermissionsEntry>)
      ensures forall i :: 0 <= i < |permissions| ==>
                && permissions[i].permissionsId in table
                && IsFilled(defaults, table[permissions[i].permissionsId], booleanKeys, numberKeys, permissions[i].permissions)
      ensures forall id :: id in table ==> exists i :: 0 <= i < |permissions| && permissions[i].permissionsId == id
      ensures forall i, j :: 0 <= i < j < |permissions| ==> permissions[i].permissionsId != permissions[j].permissionsId
      ensures |permissions| == |table|
    {
      permissions := [];
      var remaining := table.Keys;
      while remaining != {}
        invariant remaining <= table.Keys
        invariant |permissions| + |remaining| == |table|
        invariant forall i :: 0 <= i < |permissions| ==>
                    && permissions[i].permissionsId in table - remaining
                    && IsFilled(defaults, table[permissions[i].permissionsId], booleanKeys, numberKeys, permissions[i].permissions)
        invariant forall id :: id in table && id !in remaining ==>
                    exists i :: 0 <= i < |permissions| && permissions[i].permissionsId == id
        invariant forall i, j :: 0 <= i < j < |permissions| ==> permissions[i].permissionsId != permissions[j].permissionsId
        decreases |remaining|
      {
        var id :| id in remaining;
        remaining := remaining - {id};
        var filled := CopyKeys(defaults, table[id]);
        ghost var before := permissions;
        permissions := permissions + [PermissionsEntry(id, filled)];
        assert forall i :: 0 <= i < |before| ==> permissions[i] == before[i];
        assert permissions[|before|].permissionsId == id;
      }
    }

    /** `updatePermissions`. */
    method UpdatePermissions(permissionsId: PermissionsId, update: Permissions)
      modifies this
      ensures table == UpdateEntry(old(table), permissionsId, update)
    {
      table := UpdateEntry(table, permissionsId, update);
    }

    /** `clearPermissions`. */
    method ClearPermissions(permissionsId: PermissionsId)
      modifies this
      ensures table == DeleteEntry(old(table), permissionsId)
    {
      table := DeleteEntry(table, permissionsId);
    }
  }

  // ---------------------------------------------------------------- reads after writes

  /**
   * What a read of `id` returns from table `t`, for key lists that name
   * every key: the defaults, or the stored row.
   */
  function ReadBack(t: PermissionsTable, defaults: PermissionsStrict, id: PermissionsId): (r: PermissionsStrict) {
    if id == "" || id !in t then defaults else t[id]
  }

  /** With key lists that name every key, a read returns the defaults or exactly the stored row. */
  lemma ReadIsReadBack(t: PermissionsTable, defaults: PermissionsStrict, booleanKeys: seq<BooleanKey>,
                       numberKeys: seq<NumberKey>, id: PermissionsId, r: PermissionsStrict)
    requires CoversAllKeys(booleanKeys, numberKeys)
    requires id == "" || id !in t ==> r == defaults
    requires id != "" && id in t ==> IsFilled(defaults, t[id], booleanKeys, numberKeys, r)
    ensures r == ReadBack(t, defaults, id)
  {
    if id != "" && id in t {
      FilledIsRow(defaults, t[id], booleanKeys, numberKeys, r);
    }
  }

  /** After adding an entry under a new non-empty id, reading it back gives the entry's permissions. */
  lemma AddThenRead(t: PermissionsTable, defaults: PermissionsStrict, e: PermissionsEntry)
    requires e.permissionsId != "" && e.permissionsId !in t
    ensures ReadBack(InsertEntry(t, e), defaults, e.permissionsId) == e.permissions
  {
  }

  /** After clearing an id, reading it gives the defaults; other ids read as before. */
  lemma ClearThenRead(t: PermissionsTable, defaults: PermissionsStrict, id: PermissionsId, other: PermissionsId)
    ensures ReadBack(DeleteEntry(t, id), defaults, id) == defaults
    ensures other != id ==> ReadBack(DeleteEntry(t, id), defaults, other) == ReadBack(t, defaults, other)
  {
  }

  /** An update changes what a read of its id returns by the supplied fields only, and no other id's read. */
  lemma UpdateThenRead(t: PermissionsTable, defaults: PermissionsStrict, id: PermissionsId, u: Permissions, other: PermissionsId)
    ensures id != "" && id in t ==> ReadBack(UpdateEntry(t, id, u), defaults, id) == ApplyPermissionsUpdate(t[id], u)
    ensures id !in t ==> ReadBack(UpdateEntry(t, id, u), defaults, id) == defaults
    ensures other != id ==> ReadBack(UpdateEntry(t, id, u), defaults, other) == ReadBack(t, defaults, other)
  {
  }
}
