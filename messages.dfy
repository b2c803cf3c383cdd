/**
 * The messages table. A row is keyed by its UTC day (`ymd`) and by
 * `date_id`, the ISO string of its instant, a comma and its id. The table
 * is a map from key to row held by `MessageTable`, whose methods are the
 * writes and the queries the handler issues.
 */
module Messages {

  import opened Wrappers
  import opened JsText
  import opened Clock
  import opened Slack

  /** The pending state; `update_scheduled_message` would write 0, but nothing calls it. */
  const Pending := -1

  datatype Key = Key(ymd: string, dateId: string)

  datatype Row = Row(ymd: string, dateId: string, isoDate: string,
                     teamId: string, userId: string, channelId: string,
                     payload: Payload, id: string, created: int, updated: int, state: int)

  function KeyOf(r: Row): Key
  {
    Key(r.ymd, r.dateId)
  }

  /** The sort key of a message scheduled for `date` with id `id`. */
  function DateId(date: Instant, id: string): string
  {
    IsoString(date) + "," + id
  }

  /** The row `persist_scheduled_message(date, payload)` writes, given the fresh id and the clock. */
  function NewRow(date: Instant, p: Payload, id: string, clock: int): Row
  {
    Row(Ymd(date), DateId(date, id), IsoString(date), p.teamId, p.userId, p.channelId,
        p, id, clock, clock, Pending)
  }

  /** The index of the first comma of `s`, or `|s|` when there is none. */
  function CommaIndex(s: string): (k: nat)
    ensures k <= |s|
    ensures ',' !in s[..k]
    ensures k < |s| ==> s[k] == ','
  {
    if s == [] then 0
    else if s[0] == ',' then 0
    else
      var k := CommaIndex(s[1..]);
      assert s[..k + 1] == [s[0]] + s[1..][..k];
      k + 1
  }

  /** The parts of a sort key before and after its first comma. */
  function SplitDateId(dateId: string): (string, string)
  {
    var k := CommaIndex(dateId);
    (dateId[..k], if k < |dateId| then dateId[k + 1..] else "")
  }

  /** A sort key splits back into the ISO string and the id it was built from. */
  lemma SplitDateIdOf(date: Instant, id: string)
    ensures SplitDateId(DateId(date, id)) == (IsoString(date), id)
  {
    var iso := IsoString(date);
    var s := DateId(date, id);
    NoCommaInIso(date);
    var k := CommaIndex(s);
    assert s[..|iso|] == iso;
    assert s[|iso|] == ',';
    assert s[k + 1..] == id;
  }

  /** What `persist_scheduled_message` promises of the row it writes. */
  lemma NewRowShape(date: Instant, p: Payload, id: string, clock: int)
    ensures var r := NewRow(date, p, id, clock);
            && r.state == Pending
            && r.payload == p && r.id == id
            && r.teamId == p.teamId && r.userId == p.userId && r.channelId == p.channelId
            && StartsWith(r.dateId, r.ymd)
            && SplitDateId(r.dateId) == (r.isoDate, id)
            && ParseIso(r.isoDate) == Some(date)
            && r.ymd == Ymd(date)
  {
    var r := NewRow(date, p, id, clock);
    YmdPrefixOfIso(date);
    assert r.dateId[..10] == IsoString(date)[..10];
    SplitDateIdOf(date, id);
    ParseIsoString(date);
  }

  /** The key and filter shapes of the three `query_scheduled_messages_*` queries. */
  datatype QueryShape =
    | ByUser(team: string, user: string)            // team_user_index: team_id, user_id
    | ById(team: string, user: string, id: string)  // team_id_index: team_id, id; filter user_id
    | ByDate(date: Instant)                          // ymd = :ymd AND begins_with(date_id, :ymd)

  predicate Matches(q: QueryShape, r: Row)
  {
    match q
    case ByUser(team, user) => r.teamId == team && r.userId == user
    case ById(team, user, id) => r.teamId == team && r.id == id && r.userId == user
    case ByDate(date) => r.ymd == Ymd(date) && StartsWith(r.dateId, Ymd(date))
  }

  /** `items` holds exactly the rows of `rows` that `q` selects, each key once, in some order: a query's answer. */
  ghost predicate Enumerates(rows: map<Key, Row>, q: QueryShape, items: seq<Row>)
  {
    && (forall r :: r in items <==> r in rows.Values && Matches(q, r))
    && (forall i, j :: 0 <= i < j < |items| ==> KeyOf(items[i]) != KeyOf(items[j]))
  }

  /** A row as `persist_scheduled_message` writes it: day, sort key and ISO string agree. */
  ghost predicate WellFormed(r: Row)
  {
    exists date: Instant, p: Payload, clock: int :: r == NewRow(date, p, r.id, clock)
  }

  /** For rows the handler wrote, the `begins_with` condition of the day query adds nothing. */
  lemma DayQueryNeedsOnlyYmd(r: Row, now: Instant)
    requires WellFormed(r)
    ensures Matches(ByDate(now), r) <==> r.ymd == Ymd(now)
  {
    var date: Instant, p: Payload, clock: int :| r == NewRow(date, p, r.id, clock);
    NewRowShape(date, p, r.id, clock);
  }

  /** A persisted message is found again by its owner, by id and in its day bucket. */
  lemma NewRowIsFound(date: Instant, p: Payload, id: string, clock: int)
    ensures var r := NewRow(date, p, id, clock);
            && Matches(ByUser(p.teamId, p.userId), r)
            && Matches(ById(p.teamId, p.userId, id), r)
            && Matches(ByDate(date), r)
  {
    NewRowShape(date, p, id, clock);
  }

  /** Another user of the team never finds the row by its id. */
  lemma IdLookupIsOwnerScoped(date: Instant, p: Payload, id: string, clock: int, user: string)
    requires user != p.userId
    ensures !Matches(ById(p.teamId, user, id), NewRow(date, p, id, clock))
  {
  }

  class MessageTable {

    var rows: map<Key, Row>

    /** Every row is stored under its own key. */
    ghost predicate Valid()
      reads this
    {
      forall k | k in rows :: KeyOf(rows[k]) == k
    }

    constructor ()
      ensures Valid() && rows == map[]
    {
      rows := map[];
    }

    /**
     * `persist_scheduled_message`: an `updateItem` that sets every attribute
     * of the new row, so an existing row under the same key is replaced.
     * `writeOk` is false when the store rejects the call. The result is the
     * id the store echoes back (`Attributes.id`).
     */
    method Persist(date: Instant, p: Payload, id: string, clock: int, writeOk: bool)
      returns (stored: Option<string>)
      requires Valid()
      modifies this
      ensures Valid()
      ensures stored == if writeOk then Some(id) else None
      ensures rows == if writeOk then old(rows)[KeyOf(NewRow(date, p, id, clock)) := NewRow(date, p, id, clock)]
                      else old(rows)
    {
      if writeOk {
        var r := NewRow(date, p, id, clock);
        rows := rows[KeyOf(r) := r];
        stored := Some(r.id);
      } else {
        stored := None;
      }
    }

    /** `delete_scheduled_message(ymd, date_id)`: removing an absent key succeeds and changes nothing. */
    method Delete(k: Key, writeOk: bool) returns (ok: bool)
      requires Valid()
      modifies this
      ensures Valid()
      ensures ok == writeOk
      ensures rows == if writeOk then old(rows) - {k} else old(rows)
    {
      if writeOk {
        rows := rows - {k};
      }
      ok := writeOk;
    }

    /**
     * A query of the given shape: every matching row once, in an order the
     * model leaves open. `None` when the store rejects the call.
     */
    method Query(q: QueryShape, readOk: bool) returns (items: Option<seq<Row>>)
      requires Valid()
      ensures items.None? <==> !readOk
      ensures items.Some? ==> forall r :: r in items.value <==> r in rows.Values && Matches(q, r)
      ensures items.Some? ==> forall i, j :: 0 <= i < j < |items.value| ==> KeyOf(items.value[i]) != KeyOf(items.value[j])
    {
      if !readOk {
        return None;
      }
      var found: seq<Row> := [];
      var todo := rows.Keys;
      while todo != {}
        invariant todo <= rows.Keys
        invariant forall r :: r in found <==> r in rows.Values && Matches(q, r) && KeyOf(r) !in todo
        invariant forall i :: 0 <= i < |found| ==> KeyOf(found[i]) in rows && KeyOf(found[i]) !in todo
        invariant forall i, j :: 0 <= i < j < |found| ==> KeyOf(found[i]) != KeyOf(found[j])
        decreases todo
      {
        var k :| k in todo;
        var r := rows[k];
        if Matches(q, r) {
          found := found + [r];
        }
        todo := todo - {k};
      }
      items := Some(found);
    }
  }
}
