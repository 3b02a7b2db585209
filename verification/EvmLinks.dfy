/** website/convex/evm.ts: linking EVM addresses to users, with a cooldown on changing the address.
    Mutations are transactions: one that throws changes nothing. */
module EvmLinks {
  import opened Prelude

  const RELINK_COOLDOWN_MS: int := 7 * 24 * 60 * 60 * 1000

  type UserId = nat

  datatype Link = Link(
    user: UserId, address: string, chainId: nat, active: bool, signatureType: string,
    linkedAt: int, lastVerifiedAt: int, unlinkedAt: Option<int>)

  datatype Error = NoPublicKey | NotUnique | AddressTaken | CooldownActive

  type Rows = map<nat, Link>

  /** The table and the next row id. */
  datatype Table = Table(rows: Rows, nextId: nat)

  function Lower(s: string): string {
    seq(|s|, i requires 0 <= i < |s| => if 'A' <= s[i] <= 'Z' then (s[i] as int + 32) as char else s[i])
  }

  function RowsWithAddress(rows: Rows, address: string): set<nat> {
    set id | id in rows && rows[id].address == address
  }

  function RowsOfUser(rows: Rows, user: UserId): set<nat> {
    set id | id in rows && rows[id].user == user
  }

  /** What `.unique()` finds; more than one row is an error. */
  datatype Found = NoRow | One(id: nat) | Many

  ghost function Unique(ids: set<nat>): Found {
    if ids == {} then NoRow
    else if exists id :: ids == {id} then
      var id :| ids == {id}; One(id)
    else Many
  }

  datatype LinkArgs = LinkArgs(user: UserId, hasPublicKey: bool, address: string, chainId: nat, signatureType: string, now: int)

  function Relinked(row: Link, a: LinkArgs): Link {
    Link(row.user, a.address, a.chainId, true, a.signatureType,
         if row.address == a.address then row.linkedAt else a.now, a.now, None)
  }

  /** When the cooldown for a new address started. */
  function LastUnlink(row: Link): int {
    if row.unlinkedAt.Some? then row.unlinkedAt.value else row.linkedAt
  }

  ghost function Linked(t: Table, a: LinkArgs): Result<Table, Error> {
    if !a.hasPublicKey then Err(NoPublicKey)
    else
      var byAddress := Unique(RowsWithAddress(t.rows, a.address));
      if byAddress.Many? then Err(NotUnique)
      else if byAddress.One? && t.rows[byAddress.id].user != a.user && t.rows[byAddress.id].active then Err(AddressTaken)
      else
        match Unique(RowsOfUser(t.rows, a.user))
        case Many => Err(NotUnique)
        case NoRow =>
          Ok(Table(t.rows[t.nextId := Link(a.user, a.address, a.chainId, true, a.signatureType, a.now, a.now, None)], t.nextId + 1))
        case One(id) =>
          var row := t.rows[id];
          if row.address != a.address && a.now - LastUnlink(row) < RELINK_COOLDOWN_MS then Err(CooldownActive)
          else Ok(t.(rows := t.rows[id := Relinked(row, a)]))
  }

  ghost function Unlinked(t: Table, user: UserId, now: int): Result<Table, Error> {
    match Unique(RowsOfUser(t.rows, user))
    case Many => Err(NotUnique)
    case NoRow => Ok(t)
    case One(id) =>
      if !t.rows[id].active then Ok(t)
      else Ok(t.(rows := t.rows[id := t.rows[id].(active := false, unlinkedAt := Some(now))]))
  }

  method FindUnique(ids: set<nat>) returns (r: Found)
    ensures r == Unique(ids)
  {
    if ids == {} {
      return NoRow;
    }
    var id :| id in ids;
    if ids == {id} {
      return One(id);
    }
    r := Many;
  }

  class EvmLinkTable {
    var rows: Rows
    var nextId: nat

    function Value(): Table
      reads this
    {
      Table(rows, nextId)
    }

    constructor ()
      ensures Value() == Table(map[], 0)
    {
      rows, nextId := map[], 0;
    }

    method LinkEvmAddress(user: UserId, hasPublicKey: bool, evmAddress: string, chainId: nat, signatureType: string, now: int)
      returns (r: Result<Link, Error>)
      modifies this
      ensures
        match Linked(old(Value()), LinkArgs(user, hasPublicKey, Lower(evmAddress), chainId, signatureType, now))
        case Ok(after) => Value() == after && r.Ok? && r.value.active && r.value.address == Lower(evmAddress)
                          && r.value.user == user && exists id :: id in rows && rows[id] == r.value
        case Err(e) => Value() == old(Value()) && r == Err(e)
    {
      var address := Lower(evmAddress);
      if !hasPublicKey {
        return Err(NoPublicKey);
      }
      var byAddress := FindUnique(RowsWithAddress(rows, address));
      if byAddress.Many? {
        return Err(NotUnique);
      }
      if byAddress.One? && rows[byAddress.id].user != user && rows[byAddress.id].active {
        return Err(AddressTaken);
      }
      var byUser := FindUnique(RowsOfUser(rows, user));
      match byUser {
        case Many =>
          r := Err(NotUnique);
        case One(id) =>
          var row := rows[id];
          assert id in RowsOfUser(rows, user);
          if row.address != address {
            var lastUnlink := if row.unlinkedAt.Some? then row.unlinkedAt.value else row.linkedAt;
            if now - lastUnlink < RELINK_COOLDOWN_MS {
              return Err(CooldownActive);
            }
          }
          var patched := row.(address := address, chainId := chainId, active := true, signatureType := signatureType,
                              linkedAt := if row.address == address then row.linkedAt else now,
                              lastVerifiedAt := now, unlinkedAt := None);
          rows := rows[id := patched];
          r := Ok(rows[id]);
        case NoRow =>
          var id := nextId;
          rows := rows[id := Link(user, address, chainId, true, signatureType, now, now, None)];
          nextId := nextId + 1;
          r := Ok(rows[id]);
      }
    }

    method UnlinkEvmAddress(user: UserId, now: int) returns (r: Result<(), Error>)
      modifies this
      ensures
        match Unlinked(old(Value()), user, now)
        case Ok(after) => Value() == after && r == Ok(())
        case Err(e) => Value() == old(Value()) && r == Err(e)
    {
      var existing := FindUnique(RowsOfUser(rows, user));
      match existing {
        case Many => r := Err(NotUnique);
        case NoRow => r := Ok(());
        case One(id) =>
          if rows[id].active {
            rows := rows[id := rows[id].(active := false, unlinkedAt := Some(now))];
          }
          r := Ok(());
      }
    }
  }

  /******* Reachable tables *******/

  datatype Op = LinkOp(args: LinkArgs) | UnlinkOp(user: UserId, at: int)

  function TimeOf(op: Op): int {
    if op.LinkOp? then op.args.now else op.at
  }

  ghost function Applied(t: Table, op: Op): Table {
    var r := if op.LinkOp? then Linked(t, op.args) else Unlinked(t, op.user, op.at);
    if r.Ok? then r.value else t
  }

  ghost function After(ops: seq<Op>): Table {
    if ops == [] then Table(map[], 0) else Applied(After(ops[..|ops| - 1]), ops[|ops| - 1])
  }

  ghost predicate Monotone(ops: seq<Op>) {
    forall i, j :: 0 <= i < j < |ops| ==> TimeOf(ops[i]) <= TimeOf(ops[j])
  }

  ghost predicate SameActiveAddress(a: Link, b: Link) {
    a.active && b.active && a.address == b.address
  }

  /** One row per user, one active row per address. */
  ghost predicate Sound(t: Table) {
    && (forall id :: id in t.rows ==> id < t.nextId)
    && (forall i, j :: i in t.rows && j in t.rows && t.rows[i].user == t.rows[j].user ==> i == j)
    && (forall i, j :: i in t.rows && j in t.rows && SameActiveAddress(t.rows[i], t.rows[j]) ==> i == j)
  }

  lemma UniqueIs(ids: set<nat>, id: nat)
    requires id in ids
    ensures Unique(ids) != NoRow && (Unique(ids) == One(id) <==> ids == {id})
    ensures Unique(ids).One? ==> Unique(ids) == One(id)
  {
    if Unique(ids).One? {
      assert id in {Unique(ids).id};
    }
  }

  lemma UserRowIsOne(t: Table, id: nat)
    requires Sound(t) && id in t.rows
    ensures Unique(RowsOfUser(t.rows, t.rows[id].user)) == One(id)
  {
    assert RowsOfUser(t.rows, t.rows[id].user) == {id};
    UniqueIs({id}, id);
  }

  lemma LinkedStaysSound(t: Table, a: LinkArgs)
    requires Sound(t) && Linked(t, a).Ok?
    ensures Sound(Linked(t, a).value)
  {
    var after := Linked(t, a).value;
    var holders, own := RowsWithAddress(t.rows, a.address), RowsOfUser(t.rows, a.user);
    forall id | id in t.rows && t.rows[id].active && t.rows[id].address == a.address
      ensures t.rows[id].user == a.user
    {
      UniqueIs(holders, id);
    }
    if Unique(own).One? {
      assert Unique(own).id in own;
    }
    forall id | id in t.rows && t.rows[id].user == a.user
      ensures Unique(own) == One(id)
    {
      UserRowIsOne(t, id);
    }
  }

  /** In every reachable state each user has at most one row and each address at most one active row. */
  lemma {:induction false} ReachableTablesSound(ops: seq<Op>)
    ensures Sound(After(ops))
  {
    if ops != [] {
      var t, op := After(ops[..|ops| - 1]), ops[|ops| - 1];
      ReachableTablesSound(ops[..|ops| - 1]);
      if op.LinkOp? && Linked(t, op.args).Ok? {
        LinkedStaysSound(t, op.args);
      }
    }
  }

  /******* When a link succeeds, and what it does *******/

  ghost predicate HeldTwice(t: Table, address: string) {
    exists i, j :: i in t.rows && j in t.rows && i != j && t.rows[i].address == address && t.rows[j].address == address
  }

  ghost predicate TakenByOther(t: Table, address: string, user: UserId) {
    exists id :: id in t.rows && t.rows[id].address == address && t.rows[id].active && t.rows[id].user != user
  }

  /** The user has a row with another address, unlinked less than the cooldown ago or, if it was not unlinked,
      linked to that address less than the cooldown ago. */
  ghost predicate Cooling(t: Table, user: UserId, address: string, now: int) {
    exists id :: id in t.rows && t.rows[id].user == user && t.rows[id].address != address
                 && match t.rows[id].unlinkedAt
                    case Some(unlinked) => now - unlinked < RELINK_COOLDOWN_MS
                    case None => now - t.rows[id].linkedAt < RELINK_COOLDOWN_MS
  }

  lemma UniqueCases(ids: set<nat>)
    ensures Unique(ids).NoRow? <==> ids == {}
    ensures Unique(ids).Many? <==> exists i, j :: i in ids && j in ids && i != j
    ensures forall id :: id in ids && !Unique(ids).Many? ==> Unique(ids) == One(id)
  {
    if ids != {} {
      var id :| id in ids;
      UniqueIs(ids, id);
      if ids != {id} {
        assert ids == {id} + (ids - {id});
        var other :| other in ids - {id};
      }
    }
  }

  lemma NoUserRow(t: Table, user: UserId)
    requires Sound(t)
    ensures Unique(RowsOfUser(t.rows, user)).NoRow? <==> forall id :: id in t.rows ==> t.rows[id].user != user
    ensures !Unique(RowsOfUser(t.rows, user)).Many?
  {
    UniqueCases(RowsOfUser(t.rows, user));
    if id :| id in t.rows && t.rows[id].user == user {
      assert id in RowsOfUser(t.rows, user);
    }
  }

  lemma ByAddress(t: Table, a: LinkArgs)
    ensures
      var found := Unique(RowsWithAddress(t.rows, a.address));
      && (found.Many? <==> HeldTwice(t, a.address))
      && (!found.Many? ==>
            (found.One? && t.rows[found.id].user != a.user && t.rows[found.id].active <==> TakenByOther(t, a.address, a.user)))
  {
    var holders := RowsWithAddress(t.rows, a.address);
    UniqueCases(holders);
    if HeldTwice(t, a.address) {
      var i, j :| i in t.rows && j in t.rows && i != j && t.rows[i].address == a.address && t.rows[j].address == a.address;
      assert i in holders && j in holders;
    }
    if TakenByOther(t, a.address, a.user) {
      var id :| id in t.rows && t.rows[id].address == a.address && t.rows[id].active && t.rows[id].user != a.user;
      assert id in holders;
    }
    if Unique(holders).One? {
      assert Unique(holders).id in holders;
    }
  }

  lemma ByUser(t: Table, a: LinkArgs)
    requires Sound(t)
    ensures
      var found := Unique(RowsOfUser(t.rows, a.user));
      found.One? && t.rows[found.id].address != a.address && a.now - LastUnlink(t.rows[found.id]) < RELINK_COOLDOWN_MS
      <==> Cooling(t, a.user, a.address, a.now)
  {
    var own := RowsOfUser(t.rows, a.user);
    NoUserRow(t, a.user);
    if Unique(own).One? {
      assert Unique(own).id in own;
    }
    forall id | id in t.rows && t.rows[id].user == a.user
      ensures Unique(own) == One(id)
    {
      UserRowIsOne(t, id);
    }
  }

  /** A link succeeds exactly with a public key, an address in no more than one row and not active for somebody
      else, and no cooldown on a change; otherwise the first of these that fails is the error. */
  lemma LinkSucceedsIff(t: Table, a: LinkArgs)
    requires Sound(t)
    ensures Linked(t, a).Ok? <==>
              && a.hasPublicKey && !HeldTwice(t, a.address) && !TakenByOther(t, a.address, a.user)
              && !Cooling(t, a.user, a.address, a.now)
    ensures Linked(t, a).Err? ==>
              Linked(t, a).error == if !a.hasPublicKey then NoPublicKey
                                    else if HeldTwice(t, a.address) then NotUnique
                                    else if TakenByOther(t, a.address, a.user) then AddressTaken
                                    else CooldownActive
  {
    ByAddress(t, a);
    ByUser(t, a);
    NoUserRow(t, a.user);
  }

  /** After a link the user's one row is active with the given address, chain and signature, verified now,
      not unlinked, and linked now unless it held the address already; no other user's row changes. */
  ghost predicate LinkDone(before: Table, a: LinkArgs, after: Table, id: nat) {
    && id in after.rows && after.rows.Keys == before.rows.Keys + {id}
    && (forall other :: other in before.rows && other != id ==> after.rows[other] == before.rows[other])
    && (id in before.rows ==> before.rows[id].user == a.user)
    && (id !in before.rows ==> forall other :: other in before.rows ==> before.rows[other].user != a.user)
    && after.rows[id].user == a.user && after.rows[id].address == a.address && after.rows[id].active
    && after.rows[id].chainId == a.chainId && after.rows[id].signatureType == a.signatureType
    && after.rows[id].lastVerifiedAt == a.now && after.rows[id].unlinkedAt == None
    && after.rows[id].linkedAt == if id in before.rows && before.rows[id].address == a.address then before.rows[id].linkedAt else a.now
  }

  lemma LinkDoes(t: Table, a: LinkArgs) returns (id: nat)
    requires Sound(t) && Linked(t, a).Ok?
    ensures LinkDone(t, a, Linked(t, a).value, id)
  {
    NoUserRow(t, a.user);
    var own := Unique(RowsOfUser(t.rows, a.user));
    id := if own.One? then own.id else t.nextId;
    if own.One? {
      assert own.id in RowsOfUser(t.rows, a.user);
    }
  }

  /** Unlinking never fails; it marks the user's active row, keeps everything else in it, and touches no other row. */
  lemma UnlinkDoes(t: Table, user: UserId, now: int)
    requires Sound(t)
    ensures Unlinked(t, user, now).Ok? && Unlinked(t, user, now).value.rows.Keys == t.rows.Keys
    ensures forall id :: id in t.rows ==>
              var after := Unlinked(t, user, now).value.rows[id];
              if t.rows[id].user == user && t.rows[id].active then
                after == Link(user, t.rows[id].address, t.rows[id].chainId, false, t.rows[id].signatureType,
                              t.rows[id].linkedAt, t.rows[id].lastVerifiedAt, Some(now))
              else after == t.rows[id]
  {
    NoUserRow(t, user);
    var own := Unique(RowsOfUser(t.rows, user));
    if own.One? {
      assert own.id in RowsOfUser(t.rows, user);
    }
    forall id | id in t.rows && t.rows[id].user == user
      ensures own == One(id)
    {
      UserRowIsOne(t, id);
    }
  }

  /******* The cooldown *******/

  /** The address in a user's row, linked or not. */
  ghost function AddressOf(t: Table, user: UserId): Option<string> {
    var own := Unique(RowsOfUser(t.rows, user));
    if own.One? then Some(t.rows[own.id].address) else None
  }

  /** Step `k` gives the user an address, the first or another one. */
  ghost predicate ChangesAddress(ops: seq<Op>, k: nat, user: UserId)
    requires k < |ops|
  {
    AddressOf(After(ops[..k]), user) != AddressOf(After(ops[..k + 1]), user)
  }

  /** The user has a row on which no address change is older than `since`. */
  ghost predicate HeldSince(t: Table, user: UserId, since: int) {
    exists id :: id in t.rows && t.rows[id].user == user && RowHeldSince(t.rows[id], since)
  }

  ghost predicate RowHeldSince(row: Link, since: int) {
    row.linkedAt >= since && (row.unlinkedAt.Some? ==> row.unlinkedAt.value >= since)
  }

  lemma AfterStep(ops: seq<Op>, k: nat)
    requires k < |ops|
    ensures After(ops[..k + 1]) == Applied(After(ops[..k]), ops[k])
  {
    assert ops[..k + 1][..k] == ops[..k];
  }

  lemma AddressIs(t: Table, id: nat)
    requires Sound(t) && id in t.rows
    ensures AddressOf(t, t.rows[id].user) == Some(t.rows[id].address)
  {
    UserRowIsOne(t, id);
  }

  lemma NoRowsNoAddress(t: Table, user: UserId)
    requires forall id :: id in t.rows ==> t.rows[id].user != user
    ensures Unique(RowsOfUser(t.rows, user)) == NoRow && AddressOf(t, user) == None
  {
    assert RowsOfUser(t.rows, user) == {};
  }

  /** A step that changes a row leaves every other user's row alone, and keeps owners. */
  lemma RowsKept(t: Table, op: Op, id: nat)
    requires Sound(t) && id in t.rows
    ensures id in Applied(t, op).rows && Applied(t, op).rows[id].user == t.rows[id].user
    ensures Applied(t, op).rows[id] != t.rows[id] ==>
              t.rows[id].user == if op.LinkOp? then op.args.user else op.user
  {
    var user := if op.LinkOp? then op.args.user else op.user;
    var own := RowsOfUser(t.rows, user);
    if Unique(own).One? {
      assert Unique(own).id in own;
    }
  }

  /** Only a user's own successful link changes the address, and then the row is freshly dated. */
  lemma ChangeIsDated(t: Table, op: Op, user: UserId)
    requires Sound(t) && Sound(Applied(t, op)) && AddressOf(t, user) != AddressOf(Applied(t, op), user)
    ensures HeldSince(Applied(t, op), user, TimeOf(op))
    ensures forall id :: id in t.rows && t.rows[id].user == user ==> TimeOf(op) - LastUnlink(t.rows[id]) >= RELINK_COOLDOWN_MS
  {
    var after := Applied(t, op);
    if id :| id in t.rows && t.rows[id].user == user {
      RowsKept(t, op, id);
      AddressIs(t, id);
      AddressIs(after, id);
      UserRowIsOne(t, id);
      assert RowHeldSince(after.rows[id], TimeOf(op));
    } else {
      NoRowsNoAddress(t, user);
      NewRowIsDated(t, op, user);
    }
  }

  lemma NewRowIsDated(t: Table, op: Op, user: UserId)
    requires Sound(t) && forall id :: id in t.rows ==> t.rows[id].user != user
    requires AddressOf(Applied(t, op), user) != None
    ensures HeldSince(Applied(t, op), user, TimeOf(op))
  {
    var after := Applied(t, op);
    var own := RowsOfUser(after.rows, user);
    var id := Unique(own).id;
    assert id in own;
    if id in t.rows {
      RowsKept(t, op, id);
    }
    assert RowHeldSince(after.rows[id], TimeOf(op));
  }

  lemma HeldStaysHeld(t: Table, op: Op, user: UserId, since: int)
    requires Sound(t) && HeldSince(t, user, since) && since <= TimeOf(op)
    ensures HeldSince(Applied(t, op), user, since)
  {
    var id :| id in t.rows && t.rows[id].user == user && RowHeldSince(t.rows[id], since);
    RowsKept(t, op, id);
    UserRowIsOne(t, id);
    assert RowHeldSince(Applied(t, op).rows[id], since);
  }

  /** From an address change on, the row is never dated before it. */
  lemma {:induction false} HeldFromChangeOn(ops: seq<Op>, i: nat, k: nat, user: UserId)
    requires i < k <= |ops| && Monotone(ops) && ChangesAddress(ops, i, user)
    ensures HeldSince(After(ops[..k]), user, TimeOf(ops[i]))
  {
    if i == k - 1 {
      HeldOnceChanged(ops, i, user);
    } else {
      HeldFromChangeOn(ops, i, k - 1, user);
      HeldOneMore(ops, k - 1, user, TimeOf(ops[i]));
    }
  }

  lemma HeldOnceChanged(ops: seq<Op>, i: nat, user: UserId)
    requires i < |ops| && ChangesAddress(ops, i, user)
    ensures HeldSince(After(ops[..i + 1]), user, TimeOf(ops[i]))
  {
    ReachableTablesSound(ops[..i]);
    ReachableTablesSound(ops[..i + 1]);
    AfterStep(ops, i);
    ChangeIsDated(After(ops[..i]), ops[i], user);
  }

  lemma HeldOneMore(ops: seq<Op>, k: nat, user: UserId, since: int)
    requires k < |ops| && HeldSince(After(ops[..k]), user, since) && since <= TimeOf(ops[k])
    ensures HeldSince(After(ops[..k + 1]), user, since)
  {
    ReachableTablesSound(ops[..k]);
    AfterStep(ops, k);
    HeldStaysHeld(After(ops[..k]), ops[k], user, since);
  }

  /** Two address changes by one user are at least the cooldown apart, whatever unlinks and relinks of
      the same address lie between them. */
  lemma ChangesAreApart(ops: seq<Op>, i: nat, j: nat, user: UserId)
    requires i < j < |ops| && Monotone(ops)
    requires ChangesAddress(ops, i, user) && ChangesAddress(ops, j, user)
    ensures TimeOf(ops[j]) - TimeOf(ops[i]) >= 7 * 24 * 60 * 60 * 1000
  {
    var t := After(ops[..j]);
    HeldFromChangeOn(ops, i, j, user);
    ReachableTablesSound(ops[..j]);
    ReachableTablesSound(ops[..j + 1]);
    AfterStep(ops, j);
    var id :| id in t.rows && t.rows[id].user == user && RowHeldSince(t.rows[id], TimeOf(ops[i]));
    ChangeIsDated(t, ops[j], user);
  }

  /******* A change that is due is allowed *******/

  /** The row's dates come from the user's own changes of address and unlinks. */
  ghost predicate DatedBy(ops: seq<Op>, row: Link) {
    && (exists k :: 0 <= k < |ops| && TimeOf(ops[k]) == row.linkedAt && ChangesAddress(ops, k, row.user))
    && (row.unlinkedAt.Some? ==> exists k :: 0 <= k < |ops| && ops[k] == UnlinkOp(row.user, row.unlinkedAt.value))
  }

  lemma SameChange(ops: seq<Op>, n: nat, k: nat, user: UserId)
    requires k < n <= |ops|
    ensures ChangesAddress(ops[..n], k, user) == ChangesAddress(ops, k, user)
  {
    assert ops[..n][..k] == ops[..k] && ops[..n][..k + 1] == ops[..k + 1];
  }

  lemma DatesCarryOver(ops: seq<Op>, n: nat, row: Link)
    requires n <= |ops| && DatedBy(ops[..n], row)
    ensures DatedBy(ops, row)
  {
    var k :| 0 <= k < n && TimeOf(ops[..n][k]) == row.linkedAt && ChangesAddress(ops[..n], k, row.user);
    SameChange(ops, n, k, row.user);
    assert TimeOf(ops[k]) == row.linkedAt;
    if row.unlinkedAt.Some? {
      var u :| 0 <= u < n && ops[..n][u] == UnlinkOp(row.user, row.unlinkedAt.value);
      assert ops[u] == UnlinkOp(row.user, row.unlinkedAt.value);
    }
  }

  lemma {:induction false} RowsAreDated(ops: seq<Op>)
    ensures forall id :: id in After(ops).rows ==> DatedBy(ops, After(ops).rows[id])
  {
    if ops != [] {
      var n := |ops| - 1;
      RowsAreDated(ops[..n]);
      ReachableTablesSound(ops[..n]);
      ReachableTablesSound(ops);
      assert ops[..n + 1] == ops;
      AfterStep(ops, n);
      forall id | id in After(ops).rows
        ensures DatedBy(ops, After(ops).rows[id])
      {
        RowIsDated(ops, n, id);
      }
    }
  }

  lemma RowIsDated(ops: seq<Op>, n: nat, id: nat)
    requires |ops| == n + 1 && After(ops) == Applied(After(ops[..n]), ops[n])
    requires Sound(After(ops[..n])) && Sound(After(ops)) && id in After(ops).rows
    requires id in After(ops[..n]).rows ==> DatedBy(ops[..n], After(ops[..n]).rows[id])
    ensures DatedBy(ops, After(ops).rows[id])
  {
    var before, after := After(ops[..n]), After(ops);
    if ops[n].LinkOp? && Linked(before, ops[n].args).Ok? {
      var own := LinkDoes(before, ops[n].args);
      if id != own || (id in before.rows && before.rows[id].address == after.rows[id].address) {
        SameDate(ops, n, before.rows[id], after.rows[id]);
      } else {
        NewDate(ops, n, id);
      }
    } else if ops[n].UnlinkOp? {
      UnlinkDoes(before, ops[n].user, ops[n].at);
      SameDate(ops, n, before.rows[id], after.rows[id]);
    } else {
      SameDate(ops, n, before.rows[id], after.rows[id]);
    }
  }

  lemma SameDate(ops: seq<Op>, n: nat, before: Link, after: Link)
    requires |ops| == n + 1 && DatedBy(ops[..n], before) && before.user == after.user && before.linkedAt == after.linkedAt
    requires after.unlinkedAt.Some? ==>
               after.unlinkedAt == before.unlinkedAt || ops[n] == UnlinkOp(after.user, after.unlinkedAt.value)
    ensures DatedBy(ops, after)
  {
    DatesCarryOver(ops, n, before);
  }

  lemma NewDate(ops: seq<Op>, n: nat, id: nat)
    requires |ops| == n + 1 && Sound(After(ops[..n])) && Sound(After(ops))
    requires ops[n].LinkOp? && LinkDone(After(ops[..n]), ops[n].args, After(ops), id)
    requires id in After(ops[..n]).rows ==> After(ops[..n]).rows[id].address != After(ops).rows[id].address
    ensures DatedBy(ops, After(ops).rows[id])
  {
    var before, after := After(ops[..n]), After(ops);
    var user := ops[n].args.user;
    AddressIs(after, id);
    if id in before.rows {
      AddressIs(before, id);
    } else {
      NoRowsNoAddress(before, user);
    }
    assert ops[..n + 1] == ops;
    assert ChangesAddress(ops, n, user);
  }

  /** A user whose every change of address and every unlink is at least a cooldown old may link any address that
      nobody else's row holds, however often the old address was linked again in between. */
  lemma DueChangeSucceeds(ops: seq<Op>, a: LinkArgs)
    requires a.hasPublicKey
    requires forall id :: id in After(ops).rows && After(ops).rows[id].address == a.address ==> After(ops).rows[id].user == a.user
    requires forall k :: 0 <= k < |ops| && (ChangesAddress(ops, k, a.user) || (ops[k].UnlinkOp? && ops[k].user == a.user)) ==>
               a.now - TimeOf(ops[k]) >= 7 * 24 * 60 * 60 * 1000
    ensures Linked(After(ops), a).Ok?
  {
    ReachableTablesSound(ops);
    RowsAreDated(ops);
    LinkSucceedsIff(After(ops), a);
    var t := After(ops);
    forall id | id in t.rows && t.rows[id].user == a.user
      ensures a.now - t.rows[id].linkedAt >= RELINK_COOLDOWN_MS
      ensures t.rows[id].unlinkedAt.Some? ==> a.now - t.rows[id].unlinkedAt.value >= RELINK_COOLDOWN_MS
    {
      DueDates(ops, t.rows[id], a.now);
    }
  }

  lemma DueDates(ops: seq<Op>, row: Link, now: int)
    requires DatedBy(ops, row)
    requires forall k :: 0 <= k < |ops| && (ChangesAddress(ops, k, row.user) || (ops[k].UnlinkOp? && ops[k].user == row.user)) ==>
               now - TimeOf(ops[k]) >= RELINK_COOLDOWN_MS
    ensures now - row.linkedAt >= RELINK_COOLDOWN_MS
    ensures row.unlinkedAt.Some? ==> now - row.unlinkedAt.value >= RELINK_COOLDOWN_MS
  {
  }

  /** A row has an unlink time exactly when it is not active. */
  lemma {:induction false} UnlinkedRowsAreInactive(ops: seq<Op>)
    ensures forall id :: id in After(ops).rows ==> (After(ops).rows[id].unlinkedAt.Some? <==> !After(ops).rows[id].active)
  {
    if ops != [] {
      var n := |ops| - 1;
      UnlinkedRowsAreInactive(ops[..n]);
      ReachableTablesSound(ops[..n]);
      if ops[n].UnlinkOp? {
        UnlinkDoes(After(ops[..n]), ops[n].user, ops[n].at);
      } else if Linked(After(ops[..n]), ops[n].args).Ok? {
        var id := LinkDoes(After(ops[..n]), ops[n].args);
      }
    }
  }

  /******* When a user's own address can be refreshed *******/

  /** Linking again the address a user already has active succeeds exactly when no other row, not even
      another user's unlinked one, still holds that address. */
  lemma RefreshSucceedsIff(t: Table, id: nat, a: LinkArgs)
    requires Sound(t) && id in t.rows && a.hasPublicKey
    requires t.rows[id].user == a.user && t.rows[id].address == a.address
    ensures Linked(t, a).Ok? <==>
              (forall other :: other in t.rows && t.rows[other].address == a.address ==> other == id)
    ensures Linked(t, a).Err? ==> Linked(t, a).error == NotUnique
  {
    var holders := RowsWithAddress(t.rows, a.address);
    UserRowIsOne(t, id);
    UniqueIs(holders, id);
    if forall other :: other in t.rows && t.rows[other].address == a.address ==> other == id {
      assert holders == {id};
    } else {
      var other :| other in t.rows && t.rows[other].address == a.address && other != id;
      assert other in holders;
    }
  }

  function FirstLink(user: UserId, now: int): Op {
    LinkOp(LinkArgs(user, true, "0xab", 1, "eip191", now))
  }

  /** The other holder moving to another address frees it. */
  lemma MovingAwayFrees(t: Table, id: nat, other: nat, move: LinkArgs, again: LinkArgs)
    requires Sound(t) && id in t.rows && other in t.rows && id != other
    requires again.hasPublicKey && again.user == t.rows[id].user && again.address == t.rows[id].address
    requires forall row :: row in t.rows && t.rows[row].address == again.address ==> row == id || row == other
    requires move.user == t.rows[other].user && move.address != again.address && Linked(t, move).Ok?
    ensures Linked(Linked(t, move).value, again).Ok?
  {
    var after := Linked(t, move).value;
    LinkedStaysSound(t, move);
    UserRowIsOne(t, other);
    RefreshSucceedsIff(after, id, again);
  }

  /** A table reached in three ordinary steps: user 1 links and unlinks an address, user 2 links it. */
  ghost function TwoHolders(): Table {
    After([FirstLink(1, 0), UnlinkOp(1, 1), FirstLink(2, 2)])
  }

  lemma TwoHoldersRows()
    ensures Sound(TwoHolders()) && TwoHolders().rows.Keys == {0, 1}
    ensures TwoHolders().rows[0] == Link(1, "0xab", 1, false, "eip191", 0, 0, Some(1))
    ensures TwoHolders().rows[1] == Link(2, "0xab", 1, true, "eip191", 2, 2, None)
  {
    var ops := [FirstLink(1, 0), UnlinkOp(1, 1), FirstLink(2, 2)];
    AfterStep(ops, 0);
    AfterStep(ops, 1);
    AfterStep(ops, 2);
    assert ops[..0] == [] && ops[..3] == ops;
    var t0, t1, t2 := After(ops[..0]), After(ops[..1]), After(ops[..2]);
    ReachableTablesSound(ops[..1]);
    ReachableTablesSound(ops[..2]);
    ReachableTablesSound(ops);
    NoRowsNoAddress(t0, 1);
    assert RowsWithAddress(t0.rows, "0xab") == {};
    assert 0 in t1.rows && t1.rows[0].user == 1;
    UserRowIsOne(t1, 0);
    assert RowsWithAddress(t2.rows, "0xab") == {0};
    UniqueIs({0}, 0);
    NoRowsNoAddress(t2, 2);
  }

  /** There the active owner, user 2, cannot refresh the address: the unlinked row still holds it. */
  lemma OwnerCannotRefresh()
    ensures
      var t := TwoHolders();
      && Sound(t) && 1 in t.rows && t.rows[1].user == 2 && t.rows[1].active && t.rows[1].address == "0xab"
      && forall now :: Linked(t, FirstLink(2, now).args) == Err(NotUnique)
  {
    TwoHoldersRows();
    forall now
      ensures Linked(TwoHolders(), FirstLink(2, now).args) == Err(NotUnique)
    {
      RefreshSucceedsIff(TwoHolders(), 1, FirstLink(2, now).args);
    }
  }

  /** Once user 1's cooldown is over and user 1 links another address, user 2 can. */
  lemma OwnerCanRefreshAgain(now: int)
    requires now >= 1 + RELINK_COOLDOWN_MS
    ensures
      var moved := Linked(TwoHolders(), LinkArgs(1, true, "0xcd", 1, "eip191", now));
      moved.Ok? && Linked(moved.value, FirstLink(2, now).args).Ok?
  {
    var t, move := TwoHolders(), LinkArgs(1, true, "0xcd", 1, "eip191", now);
    TwoHoldersRows();
    assert RowsWithAddress(t.rows, "0xcd") == {};
    UserRowIsOne(t, 0);
    MovingAwayFrees(t, 1, 0, move, FirstLink(2, now).args);
  }

  /** Addresses are compared without regard to the case of ASCII letters. */
  lemma LowerIsCaseless(a: string, b: string)
    ensures Lower(a) == Lower(b) <==>
            |a| == |b| && forall i :: 0 <= i < |a| ==> SameLetter(a[i], b[i])
    ensures forall i :: 0 <= i < |Lower(a)| ==> !('A' <= Lower(a)[i] <= 'Z') && SameLetter(Lower(a)[i], a[i])
  {
    if Lower(a) == Lower(b) {
      forall i | 0 <= i < |a|
        ensures SameLetter(a[i], b[i])
      {
        assert Lower(a)[i] == Lower(b)[i];
      }
    }
  }

  /** The same character, or the two cases of one ASCII letter. */
  predicate SameLetter(x: char, y: char) {
    || x == y
    || ('A' <= x <= 'Z' && y as int == x as int + 32)
    || ('A' <= y <= 'Z' && x as int == y as int + 32)
  }
}
