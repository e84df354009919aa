/** The favorite controller of the content backend: `create` and
    `deleteByPropertyId` over the table of `{ id, user, property }` rows that
    the entity service keeps. */
module FavoriteStore {
  import opened Common
  import Decimal

  /** A favorite row. `property` holds whatever number the request carried. */
  datatype Favorite = Favorite(id: nat, user: int, property: real, publishedAt: int)

  /** `ctx.request.body?.data?.property`: any JSON or JavaScript value. */
  datatype JsValue = Undefined | Null | Bool(b: bool) | Number(x: real) | NaN | Str(s: string) | Object

  /** What a handler answers: the (sanitised) row, or an HTTP error. */
  datatype Reply =
    | Ok(row: Favorite)
    | Unauthorized(message: string)
    | BadRequest(message: string)
    | NotFound(message: string)

  /** A request that passed the guards (who asks, for which property), or the
      early error reply. */
  datatype Checked = Accept(user: int, property: real) | Refuse(reply: Reply)

  const CreateUnauthorized := "You must be logged in to add a favorite."
  const CreateBadRequest := "Missing or invalid \"property\" ID in request body data."
  const DeleteUnauthorized := "You must be logged in to remove a favorite."
  const DeleteMissing := "Missing propertyId parameter."
  const DeleteInvalid := "Invalid propertyId parameter."
  const DeleteNotFound := "Favorite not found for this property and user."

  /** `!v` in JavaScript. */
  predicate Falsy(v: JsValue) {
    v.Undefined? || v.Null? || v == Bool(false) || v == Number(0.0) || v.NaN? || v == Str("")
  }

  /** `typeof v === 'number'`. */
  predicate IsNumber(v: JsValue) {
    v.Number? || v.NaN?
  }

  /** The guards of `create`: no user is Unauthorized, checked before the
      body; then only a non-zero number is a usable property id. */
  function CheckCreate(caller: Option<int>, property: JsValue): (r: Checked)
    ensures r.Accept? <==> caller.Some? && property.Number? && property.x != 0.0
    ensures r.Accept? ==> r.user == caller.value && r.property == property.x
    ensures r.Refuse? ==> r.reply == if caller.None? then Unauthorized(CreateUnauthorized)
                                     else BadRequest(CreateBadRequest)
  {
    if caller.None? then Refuse(Unauthorized(CreateUnauthorized))
    else if Falsy(property) || !IsNumber(property) then Refuse(BadRequest(CreateBadRequest))
    else Accept(caller.value, property.x)
  }

  /** The guards of `deleteByPropertyId`: no user, then a missing or empty
      path parameter, then one in which `parseInt` finds no number. */
  function CheckDelete(caller: Option<int>, propertyId: Option<string>): (r: Checked)
    ensures r.Accept? <==> caller.Some? && Truthy(propertyId) && Decimal.ParseInt(propertyId.value).Some?
    ensures r.Accept? ==> r.user == caller.value && r.property == Decimal.ParseInt(propertyId.value).value as real
    ensures caller.None? ==> r == Refuse(Unauthorized(DeleteUnauthorized))
    ensures caller.Some? && !Truthy(propertyId) ==> r == Refuse(BadRequest(DeleteMissing))
    ensures caller.Some? && Truthy(propertyId) && Decimal.ParseInt(propertyId.value).None?
            ==> r == Refuse(BadRequest(DeleteInvalid))
  {
    if caller.None? then Refuse(Unauthorized(DeleteUnauthorized))
    else if !Truthy(propertyId) then Refuse(BadRequest(DeleteMissing))
    else match Decimal.ParseInt(propertyId.value)
      case None => Refuse(BadRequest(DeleteInvalid))
      case Some(n) => Accept(caller.value, n as real)
  }

  /** The path parameter the client sends for property `p` passes the guards
      and names `p` again. */
  lemma ClientDeletePathAccepted(user: int, p: int)
    ensures CheckDelete(Some(user), Some(Decimal.DecimalString(p))) == Accept(user, p as real)
  {
    Decimal.ParseIntOfDecimal(p);
  }

  predicate Matches(f: Favorite, user: int, property: real) {
    f.user == user && f.property == property
  }

  /** `findMany` with the filters `{ user, property }` and `limit: 1`: the
      position of the first matching row. */
  function FindFirst(rows: seq<Favorite>, user: int, property: real): (k: Option<nat>)
    ensures k.Some? ==> k.value < |rows| && Matches(rows[k.value], user, property)
    ensures k.Some? ==> forall j :: 0 <= j < k.value ==> !Matches(rows[j], user, property)
    ensures k.None? ==> forall j :: 0 <= j < |rows| ==> !Matches(rows[j], user, property)
  {
    if rows == [] then None
    else if Matches(rows[0], user, property) then Some(0)
    else match FindFirst(rows[1..], user, property)
      case None => None
      case Some(i) => Some(i + 1)
  }

  /** How many rows link `user` to `property`. */
  function CountMatching(rows: seq<Favorite>, user: int, property: real): nat {
    if rows == [] then 0
    else (if Matches(rows[0], user, property) then 1 else 0) + CountMatching(rows[1..], user, property)
  }

  /** At most one row per (user, property) pair: what the existence check in
      `create` is meant to keep. */
  ghost predicate PairsUnique(rows: seq<Favorite>) {
    forall i, j :: 0 <= i < j < |rows| ==>
      !(rows[i].user == rows[j].user && rows[i].property == rows[j].property)
  }

  ghost predicate IdsDistinct(rows: seq<Favorite>) {
    forall i, j :: 0 <= i < j < |rows| ==> rows[i].id != rows[j].id
  }

  ghost predicate IdsBelow(rows: seq<Favorite>, bound: nat) {
    forall i :: 0 <= i < |rows| ==> rows[i].id < bound
  }

  /** `entityService.delete` by id: every row with that id goes, the others
      stay in order. */
  function RemoveById(rows: seq<Favorite>, id: nat): (r: seq<Favorite>)
    ensures |r| <= |rows|
    ensures forall i :: 0 <= i < |r| ==> r[i].id != id && r[i] in rows
  {
    if rows == [] then []
    else (if rows[0].id == id then [] else [rows[0]]) + RemoveById(rows[1..], id)
  }

  lemma {:induction false} CountAppend(a: seq<Favorite>, b: seq<Favorite>, user: int, property: real)
    ensures CountMatching(a + b, user, property) == CountMatching(a, user, property) + CountMatching(b, user, property)
    decreases |a|
  {
    if a == [] {
      assert a + b == b;
    } else {
      assert (a + b)[0] == a[0] && (a + b)[1..] == a[1..] + b;
      CountAppend(a[1..], b, user, property);
    }
  }

  /** No matching row is the same as a count of zero. */
  lemma {:induction false} CountZeroIffNoMatch(rows: seq<Favorite>, user: int, property: real)
    ensures CountMatching(rows, user, property) == 0 <==> FindFirst(rows, user, property).None?
    decreases |rows|
  {
    if rows != [] {
      CountZeroIffNoMatch(rows[1..], user, property);
    }
  }

  /** Under the one-row-per-pair invariant a pair is matched at most once. */
  lemma {:induction false} UniquePairCountsAtMostOne(rows: seq<Favorite>, user: int, property: real)
    requires PairsUnique(rows)
    ensures CountMatching(rows, user, property) <= 1
    decreases |rows|
  {
    if rows != [] {
      var tail := rows[1..];
      assert PairsUnique(tail) by {
        forall i, j | 0 <= i < j < |tail|
          ensures !(tail[i].user == tail[j].user && tail[i].property == tail[j].property)
        {
          assert tail[i] == rows[i + 1] && tail[j] == rows[j + 1];
        }
      }
      UniquePairCountsAtMostOne(tail, user, property);
      if Matches(rows[0], user, property) {
        forall j | 0 <= j < |tail| ensures !Matches(tail[j], user, property) {
          assert tail[j] == rows[j + 1];
        }
        CountZeroIffNoMatch(tail, user, property);
      }
    }
  }

  /** With distinct ids, deleting the id of row `k` removes exactly row `k`. */
  lemma {:induction false} RemoveByIdAt(rows: seq<Favorite>, k: nat)
    requires IdsDistinct(rows) && k < |rows|
    ensures RemoveById(rows, rows[k].id) == rows[..k] + rows[k + 1..]
    decreases |rows|
  {
    var id := rows[k].id;
    var tail := rows[1..];
    assert IdsDistinct(tail);
    if k == 0 {
      assert forall j :: 0 <= j < |tail| ==> tail[j].id != id by {
        forall j | 0 <= j < |tail| ensures tail[j].id != id {
          assert tail[j] == rows[j + 1];
        }
      }
      RemoveAbsentId(tail, id);
    } else {
      assert rows[0].id != id;
      assert tail[k - 1] == rows[k];
      RemoveByIdAt(tail, k - 1);
      calc {
        RemoveById(rows, id);
        [rows[0]] + RemoveById(tail, id);
        [rows[0]] + (tail[..k - 1] + tail[k..]);
        ([rows[0]] + tail[..k - 1]) + tail[k..];
        { assert rows[..k] == [rows[0]] + tail[..k - 1]; assert rows[k + 1..] == tail[k..]; }
        rows[..k] + rows[k + 1..];
      }
    }
  }

  lemma {:induction false} RemoveAbsentId(rows: seq<Favorite>, id: nat)
    requires forall j :: 0 <= j < |rows| ==> rows[j].id != id
    ensures RemoveById(rows, id) == rows
    decreases |rows|
  {
    if rows != [] {
      assert rows[0].id != id;
      RemoveAbsentId(rows[1..], id);
      assert [rows[0]] + rows[1..] == rows;
    }
  }

  /** Deleting by id keeps ids distinct. */
  lemma {:induction false} RemoveByIdKeepsDistinct(rows: seq<Favorite>, id: nat)
    requires IdsDistinct(rows)
    ensures IdsDistinct(RemoveById(rows, id))
    decreases |rows|
  {
    if rows != [] {
      var tail := rows[1..];
      assert IdsDistinct(tail);
      RemoveByIdKeepsDistinct(tail, id);
      var rt := RemoveById(tail, id);
      if rows[0].id != id {
        assert RemoveById(rows, id) == [rows[0]] + rt;
        forall j | 0 <= j < |rt| ensures rt[j].id != rows[0].id {
          var m :| 0 <= m < |tail| && tail[m] == rt[j];
          assert tail[m] == rows[m + 1];
        }
      } else {
        assert RemoveById(rows, id) == rt;
      }
    }
  }

  /** Deleting by id keeps ids distinct and below the next free id. */
  lemma RemoveByIdKeepsIds(rows: seq<Favorite>, id: nat, bound: nat)
    requires IdsDistinct(rows) && IdsBelow(rows, bound)
    ensures IdsDistinct(RemoveById(rows, id)) && IdsBelow(RemoveById(rows, id), bound)
  {
    RemoveByIdKeepsDistinct(rows, id);
    var r := RemoveById(rows, id);
    forall j | 0 <= j < |r| ensures r[j].id < bound {
      var m :| 0 <= m < |rows| && rows[m] == r[j];
    }
  }

  /** Removing row `k` keeps the one-row-per-pair invariant. */
  lemma RemoveAtKeepsUnique(rows: seq<Favorite>, k: nat)
    requires PairsUnique(rows) && k < |rows|
    ensures PairsUnique(rows[..k] + rows[k + 1..])
  {
  }

  class FavoriteTable {
    var rows: seq<Favorite>
    var nextId: nat

    ghost predicate Valid()
      reads this
    {
      IdsBelow(rows, nextId) && IdsDistinct(rows)
    }

    constructor (initialRows: seq<Favorite>, firstFreeId: nat)
      requires IdsBelow(initialRows, firstFreeId) && IdsDistinct(initialRows)
      ensures Valid() && rows == initialRows && nextId == firstFreeId
    {
      rows := initialRows;
      nextId := firstFreeId;
    }

    /** `entityService.create`: stores a row under the next free id. */
    method Insert(user: int, property: real, now: int) returns (row: Favorite)
      requires Valid()
      modifies this
      ensures Valid()
      ensures row == Favorite(old(nextId), user, property, now)
      ensures rows == old(rows) + [row] && nextId == old(nextId) + 1
    {
      row := Favorite(nextId, user, property, now);
      rows := rows + [row];
      nextId := nextId + 1;
    }

    /** `entityService.delete` by the row's own id. */
    method DeleteById(id: nat)
      requires Valid()
      modifies this
      ensures Valid()
      ensures rows == RemoveById(old(rows), id) && nextId == old(nextId)
    {
      RemoveByIdKeepsIds(rows, id, nextId);
      rows := RemoveById(rows, id);
    }

    /** POST /favorites. */
    method Create(caller: Option<int>, property: JsValue, now: int) returns (reply: Reply)
      requires Valid()
      modifies this
      ensures Valid()
      ensures CheckCreate(caller, property).Refuse? ==>
                reply == CheckCreate(caller, property).reply
                && rows == old(rows) && nextId == old(nextId)
      ensures CheckCreate(caller, property).Accept? ==>
                var u, p := caller.value, property.x;
                var k := FindFirst(old(rows), u, p);
                && (k.Some? ==> reply == Ok(old(rows)[k.value]) && rows == old(rows) && nextId == old(nextId))
                && (k.None? ==> reply == Ok(Favorite(old(nextId), u, p, now)) && rows == old(rows) + [reply.row]
                                && nextId == old(nextId) + 1)
                && CountMatching(rows, u, p) == if k.None? then 1 else old(CountMatching(rows, u, p))
      ensures PairsUnique(old(rows)) ==> PairsUnique(rows)
    {
      var check := CheckCreate(caller, property);
      if check.Refuse? {
        return check.reply;
      }
      var u, p := check.user, check.property;
      var existing := FindFirst(rows, u, p);
      if existing.Some? {
        return Ok(rows[existing.value]);
      }
      ghost var before := rows;
      var row := Insert(u, p, now);
      reply := Ok(row);
      CountZeroIffNoMatch(before, u, p);
      CountAppend(before, [row], u, p);
      assert [row][1..] == [];
      assert PairsUnique(before) ==> PairsUnique(rows) by {
        if PairsUnique(before) {
          forall i, j | 0 <= i < j < |rows|
            ensures !(rows[i].user == rows[j].user && rows[i].property == rows[j].property)
          {
            if j == |before| {
              assert rows[j] == row && rows[i] == before[i];
            } else {
              assert rows[i] == before[i] && rows[j] == before[j];
            }
          }
        }
      }
    }

    /** DELETE /favorites/property/:propertyId. */
    method DeleteByPropertyId(caller: Option<int>, propertyId: Option<string>) returns (reply: Reply)
      requires Valid()
      modifies this
      ensures Valid() && nextId == old(nextId)
      ensures CheckDelete(caller, propertyId).Refuse? ==>
                reply == CheckDelete(caller, propertyId).reply && rows == old(rows)
      ensures CheckDelete(caller, propertyId).Accept? ==>
                var u, p := caller.value, CheckDelete(caller, propertyId).property;
                var k := FindFirst(old(rows), u, p);
                && (k.None? ==> reply == NotFound(DeleteNotFound) && rows == old(rows))
                && (k.Some? ==> reply == Ok(old(rows)[k.value])
                                && rows == old(rows)[..k.value] + old(rows)[k.value + 1..]
                                && CountMatching(rows, u, p) == old(CountMatching(rows, u, p)) - 1)
      ensures PairsUnique(old(rows)) ==> PairsUnique(rows)
    {
      var check := CheckDelete(caller, propertyId);
      if check.Refuse? {
        return check.reply;
      }
      var u, p := check.user, check.property;
      var found := FindFirst(rows, u, p);
      if found.None? {
        return NotFound(DeleteNotFound);
      }
      ghost var before := rows;
      var k := found.value;
      var target := rows[k];
      RemoveByIdAt(rows, k);
      DeleteById(target.id);
      reply := Ok(target);
      assert before == before[..k] + [target] + before[k + 1..];
      CountAppend(before[..k] + [target], before[k + 1..], u, p);
      CountAppend(before[..k], [target], u, p);
      CountAppend(before[..k], before[k + 1..], u, p);
      assert [target][1..] == [];
      if PairsUnique(before) {
        RemoveAtKeepsUnique(before, k);
      }
    }
  }

  /** Two creates in a row for the same pair answer with the same row and
      leave exactly one row for the pair. */
  method SequentialCreates(initialRows: seq<Favorite>, firstFreeId: nat, user: int, property: real, now: int)
    returns (first: Reply, second: Reply, count: nat)
    requires IdsBelow(initialRows, firstFreeId) && IdsDistinct(initialRows)
    requires CountMatching(initialRows, user, property) <= 1
    requires property != 0.0
    ensures first.Ok? && second == first && count == 1
  {
    var table := new FavoriteTable(initialRows, firstFreeId);
    CountZeroIffNoMatch(initialRows, user, property);
    first := table.Create(Some(user), Number(property), now);
    CountZeroIffNoMatch(table.rows, user, property);
    var k := FindFirst(table.rows, user, property);
    if FindFirst(initialRows, user, property).None? {
      assert k.value == |initialRows|;
    }
    second := table.Create(Some(user), Number(property), now + 1);
    count := CountMatching(table.rows, user, property);
  }

  /** Un-favoriting through the client's path removes the row that `create`
      returned; a second delete for the same pair is NotFound. */
  method CreateThenDeleteTwice(initialRows: seq<Favorite>, firstFreeId: nat, user: int, p: int, now: int)
    returns (created: Reply, deleted: Reply, again: Reply)
    requires IdsBelow(initialRows, firstFreeId) && IdsDistinct(initialRows)
    requires PairsUnique(initialRows)
    requires p != 0
    ensures created.Ok? && deleted == created && again == NotFound(DeleteNotFound)
  {
    var table := new FavoriteTable(initialRows, firstFreeId);
    created := table.Create(Some(user), Number(p as real), now);
    UniquePairCountsAtMostOne(table.rows, user, p as real);
    ClientDeletePathAccepted(user, p);
    CountZeroIffNoMatch(table.rows, user, p as real);
    deleted := table.DeleteByPropertyId(Some(user), Some(Decimal.DecimalString(p)));
    CountZeroIffNoMatch(table.rows, user, p as real);
    again := table.DeleteByPropertyId(Some(user), Some(Decimal.DecimalString(p)));
  }
}
