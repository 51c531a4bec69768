/**
 * The preference table behind `/api/preferences`: which signed-in user liked,
 * viewed or reviewed which place or event. `POST` records an interaction or,
 * for `unlike`, deletes the matching likes; `GET` lists the caller's rows.
 */
module Preferences {
  import opened Basics

  /** The interaction kinds a request may carry. `Unlike` is never stored: it deletes likes. */
  datatype Interaction = Like | View | Review | Unlike

  /** A row of the `userPreferences` table; `id` is the serial key the database assigns. */
  datatype Preference = Preference(
    id: int,
    userId: string,
    placeId: Option<int>,
    eventId: Option<int>,
    interactionType: Interaction,
    rating: Option<int>)

  /** The JSON body of a `POST`; the ids and the rating may be absent. */
  datatype PreferenceData = PreferenceData(
    placeId: Option<int>,
    eventId: Option<int>,
    interactionType: Interaction,
    rating: Option<int>)

  /** What a handler answers: an error with its HTTP status, `{ success: true }`, the inserted row, or a row list. */
  datatype Response =
    | Failure(status: int, error: string)
    | Success
    | Inserted(row: Preference)
    | Listed(rows: seq<Preference>)

  /** JavaScript truthiness of an optional number: absent and `0` are falsy. */
  predicate Truthy(n: Option<int>) {
    n.Some? && n.value != 0
  }

  /** JavaScript truthiness of the caller's user id: no session and `""` are both "not logged in". */
  predicate SignedIn(userId: Option<string>) {
    userId.Some? && userId.value != ""
  }

  /** One `eq(column, value)` term of the delete's `WHERE`. */
  datatype Condition =
    | UserIs(user: string)
    | TypeIs(kind: Interaction)
    | PlaceIs(place: int)
    | EventIs(event: int)

  /** SQL equality on a row; a NULL id column equals no value. */
  predicate Holds(row: Preference, c: Condition) {
    match c
    case UserIs(u) => row.userId == u
    case TypeIs(t) => row.interactionType == t
    case PlaceIs(p) => row.placeId == Some(p)
    case EventIs(e) => row.eventId == Some(e)
  }

  /** `and(...conditions)`: every condition holds. */
  predicate HoldsAll(row: Preference, cs: seq<Condition>) {
    forall k :: 0 <= k < |cs| ==> Holds(row, cs[k])
  }

  /**
   * The conditions an `unlike` deletes by: the caller's likes, narrowed by the
   * place id when it is truthy and otherwise by the event id.
   */
  function UnlikeConditions(user: string, placeId: Option<int>, eventId: Option<int>): (cs: seq<Condition>)
    ensures |cs| >= 2 && cs[0] == UserIs(user) && cs[1] == TypeIs(Like)
    ensures Truthy(placeId) ==> cs == [UserIs(user), TypeIs(Like), PlaceIs(placeId.value)]
    ensures !Truthy(placeId) && Truthy(eventId) ==> cs == [UserIs(user), TypeIs(Like), EventIs(eventId.value)]
  {
    [UserIs(user), TypeIs(Like)]
      + (if Truthy(placeId) then [PlaceIs(placeId.value)]
         else if Truthy(eventId) then [EventIs(eventId.value)]
         else [])
  }

  /** `db.delete(...).where(...)`: the rows left after deleting those that satisfy every condition. */
  function DeleteWhere(rows: seq<Preference>, cs: seq<Condition>): seq<Preference> {
    Filter(rows, (row: Preference) => !HoldsAll(row, cs))
  }

  /** An `unlike` with a truthy place id deletes exactly the caller's likes of that place. */
  lemma UnlikePlace(rows: seq<Preference>, user: string, placeId: Option<int>, eventId: Option<int>)
    requires Truthy(placeId)
    ensures forall row :: row in DeleteWhere(rows, UnlikeConditions(user, placeId, eventId)) <==>
      row in rows && !(row.userId == user && row.interactionType == Like && row.placeId == placeId)
  {
    var cs := UnlikeConditions(user, placeId, eventId);
    forall row
      ensures HoldsAll(row, cs) <==> row.userId == user && row.interactionType == Like && row.placeId == placeId
    {
      if row.userId == user && row.interactionType == Like && row.placeId == placeId {
        forall k | 0 <= k < |cs| ensures Holds(row, cs[k]) { }
      } else {
        assert !Holds(row, cs[0]) || !Holds(row, cs[1]) || !Holds(row, cs[2]);
      }
    }
  }

  /** Without a truthy place id, an `unlike` deletes exactly the caller's likes of the event. */
  lemma UnlikeEvent(rows: seq<Preference>, user: string, placeId: Option<int>, eventId: Option<int>)
    requires !Truthy(placeId) && Truthy(eventId)
    ensures forall row :: row in DeleteWhere(rows, UnlikeConditions(user, placeId, eventId)) <==>
      row in rows && !(row.userId == user && row.interactionType == Like && row.eventId == eventId)
  {
    var cs := UnlikeConditions(user, placeId, eventId);
    forall row
      ensures HoldsAll(row, cs) <==> row.userId == user && row.interactionType == Like && row.eventId == eventId
    {
      if row.userId == user && row.interactionType == Like && row.eventId == eventId {
        forall k | 0 <= k < |cs| ensures Holds(row, cs[k]) { }
      } else {
        assert !Holds(row, cs[0]) || !Holds(row, cs[1]) || !Holds(row, cs[2]);
      }
    }
  }

  /** An `unlike` keeps every row of another user and every row that is not a like. */
  lemma UnlikeSparesOthers(rows: seq<Preference>, user: string, placeId: Option<int>, eventId: Option<int>, row: Preference)
    requires row in rows
    requires row.userId != user || row.interactionType != Like
    ensures row in DeleteWhere(rows, UnlikeConditions(user, placeId, eventId))
  {
    var cs := UnlikeConditions(user, placeId, eventId);
    assert !Holds(row, cs[0]) || !Holds(row, cs[1]);
  }

  /** Repeating an `unlike` deletes nothing more. */
  lemma UnlikeIdempotent(rows: seq<Preference>, cs: seq<Condition>)
    ensures DeleteWhere(DeleteWhere(rows, cs), cs) == DeleteWhere(rows, cs)
  {
    FilterTwice(rows, (row: Preference) => !HoldsAll(row, cs));
  }

  /** Row ids strictly increase along the table, so no id repeats. */
  predicate IdsIncreasing(rows: seq<Preference>) {
    forall i, j :: 0 <= i < j < |rows| ==> rows[i].id < rows[j].id
  }

  /** A row whose id is below every id of an increasing table can be put in front of it. */
  lemma ConsIncreasing(row: Preference, rest: seq<Preference>)
    requires IdsIncreasing(rest)
    requires forall x :: x in rest ==> row.id < x.id
    ensures IdsIncreasing([row] + rest)
  {
    var r := [row] + rest;
    forall i, j | 0 <= i < j < |r| ensures r[i].id < r[j].id {
      assert r[j] == rest[j - 1];
      if i > 0 {
        assert r[i] == rest[i - 1];
      }
    }
  }

  /** Deleting rows keeps the ids increasing. */
  lemma {:induction false} DeleteKeepsIds(rows: seq<Preference>, p: Preference -> bool)
    requires IdsIncreasing(rows)
    ensures IdsIncreasing(Filter(rows, p))
  {
    if rows != [] {
      var tail := rows[1..];
      assert IdsIncreasing(tail) by {
        forall i, j | 0 <= i < j < |tail| ensures tail[i].id < tail[j].id {
          assert tail[i] == rows[i + 1] && tail[j] == rows[j + 1];
        }
      }
      DeleteKeepsIds(tail, p);
      if p(rows[0]) {
        forall x | x in Filter(tail, p) ensures rows[0].id < x.id {
          var k :| 0 <= k < |tail| && tail[k] == x;
          assert rows[k + 1] == x;
        }
        ConsIncreasing(rows[0], Filter(tail, p));
      }
    }
  }

  /** The rows a `GET` returns to `user`: exactly the rows they own, in table order. */
  function RowsOf(rows: seq<Preference>, user: string): (mine: seq<Preference>)
    ensures forall row :: row in mine <==> row in rows && row.userId == user
  {
    Filter(rows, (row: Preference) => row.userId == user)
  }

  /** Each of the caller's rows is listed as often as it is in the table, and no other row is. */
  lemma RowsOfCounts(rows: seq<Preference>, user: string, row: Preference)
    ensures multiset(RowsOf(rows, user))[row] == if row.userId == user then multiset(rows)[row] else 0
  {
    FilterMultiplicity(rows, (r: Preference) => r.userId == user, row);
  }

  /** The table, held in insertion order, with the next serial id. */
  class PreferenceTable {
    var rows: seq<Preference>
    var nextId: int

    /** Rows carry distinct ids, all below the next one to be assigned. */
    ghost predicate Valid()
      reads this
    {
      IdsIncreasing(rows) && forall k :: 0 <= k < |rows| ==> rows[k].id < nextId
    }

    /** An empty table whose first row gets id 1. */
    constructor ()
      ensures rows == [] && nextId == 1
      ensures Valid()
    {
      rows := [];
      nextId := 1;
    }

    /** `POST /api/preferences` by the caller `userId` with body `data`. */
    method Post(userId: Option<string>, data: PreferenceData) returns (response: Response)
      requires Valid()
      modifies this
      ensures Valid()
      ensures !SignedIn(userId) ==>
        response == Failure(401, "You must be logged in to update preferences")
        && rows == old(rows) && nextId == old(nextId)
      ensures SignedIn(userId) && !Truthy(data.placeId) && !Truthy(data.eventId) ==>
        response == Failure(400, "Either placeId or eventId must be provided")
        && rows == old(rows) && nextId == old(nextId)
      ensures SignedIn(userId) && (Truthy(data.placeId) || Truthy(data.eventId)) && data.interactionType == Unlike ==>
        response == Success
        && rows == DeleteWhere(old(rows), UnlikeConditions(userId.value, data.placeId, data.eventId))
        && nextId == old(nextId)
      ensures SignedIn(userId) && (Truthy(data.placeId) || Truthy(data.eventId)) && data.interactionType != Unlike ==>
        response == Inserted(Preference(old(nextId), userId.value, data.placeId, data.eventId, data.interactionType, data.rating))
        && rows == old(rows) + [response.row]
        && nextId == old(nextId) + 1
    {
      if !SignedIn(userId) {
        return Failure(401, "You must be logged in to update preferences");
      }
      var user := userId.value;
      if !Truthy(data.placeId) && !Truthy(data.eventId) {
        return Failure(400, "Either placeId or eventId must be provided");
      }
      if data.interactionType == Unlike {
        var conditions := [UserIs(user), TypeIs(Like)];
        if Truthy(data.placeId) {
          conditions := conditions + [PlaceIs(data.placeId.value)];
        } else if Truthy(data.eventId) {
          conditions := conditions + [EventIs(data.eventId.value)];
        }
        DeleteKeepsIds(rows, (row: Preference) => !HoldsAll(row, conditions));
        rows := DeleteWhere(rows, conditions);
        return Success;
      }
      var row := Preference(nextId, user, data.placeId, data.eventId, data.interactionType, data.rating);
      rows := rows + [row];
      nextId := nextId + 1;
      return Inserted(row);
    }

    /** `GET /api/preferences` by the caller `userId`; the table is only read. */
    method Get(userId: Option<string>) returns (response: Response)
      ensures !SignedIn(userId) ==> response == Failure(401, "You must be logged in to get preferences")
      ensures SignedIn(userId) ==> response == Listed(RowsOf(rows, userId.value))
      ensures SignedIn(userId) ==>
        response.Listed? && (forall row :: row in response.rows <==> row in rows && row.userId == userId.value)
    {
      if !SignedIn(userId) {
        return Failure(401, "You must be logged in to get preferences");
      }
      return Listed(RowsOf(rows, userId.value));
    }
  }
}
