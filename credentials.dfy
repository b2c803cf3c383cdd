/**
 * `check_token`: the credential gate. The tokens table is read through a
 * query on (team, user); the first row it returns decides.
 */
module Credentials {

  import opened Wrappers

  /** A row of the tokens table; `state == -1` marks an active credential. */
  datatype TokenRow = TokenRow(teamId: string, userId: string, id: string,
                               state: int, accessToken: string)

  const Active := -1

  /** The outcome of `check_token`: resolved with a token, resolved empty, or rejected. */
  datatype TokenCheck = Granted(accessToken: string) | NoToken | QueryFailed

  /** The rows `team_id = :team_id AND user_id = :user_id` returns, in table order. */
  function QueryToken(rows: seq<TokenRow>, team: string, user: string): (r: seq<TokenRow>)
    ensures |r| <= |rows|
    ensures forall x :: x in r <==> x in rows && x.teamId == team && x.userId == user
  {
    if rows == [] then []
    else if rows[0].teamId == team && rows[0].userId == user then [rows[0]] + QueryToken(rows[1..], team, user)
    else QueryToken(rows[1..], team, user)
  }

  /** The query keeps table order: the first row it returns is the first row of the user in the table. */
  lemma {:induction false} FirstMatch(rows: seq<TokenRow>, team: string, user: string, i: nat)
    requires i < |rows| && rows[i].teamId == team && rows[i].userId == user
    requires forall j :: 0 <= j < i ==> !(rows[j].teamId == team && rows[j].userId == user)
    ensures QueryToken(rows, team, user) != [] && QueryToken(rows, team, user)[0] == rows[i]
  {
    if i > 0 {
      assert forall j :: 0 <= j < i - 1 ==> rows[1..][j] == rows[j + 1];
      FirstMatch(rows[1..], team, user, i - 1);
    }
  }

  /**
   * `check_token(team, user)`. `store` is `None` when the query rejects,
   * which includes a deployment without a tokens table: the query then
   * resolves to `undefined` and reading its `Items` throws.
   */
  function CheckToken(store: Option<seq<TokenRow>>, team: string, user: string): (r: TokenCheck)
    ensures store.None? <==> r == QueryFailed
    ensures r.Granted? <==> store.Some? && QueryToken(store.value, team, user) != []
                            && QueryToken(store.value, team, user)[0].state == Active
    ensures r.Granted? ==> exists x :: x in store.value && x.teamId == team && x.userId == user
                                       && x.state == Active && x.accessToken == r.accessToken
  {
    if store.None? then QueryFailed
    else
      var items := QueryToken(store.value, team, user);
      if |items| > 0 then
        if items[0].state == Active then Granted(items[0].accessToken) else NoToken
      else NoToken
  }

  /** The caller's `if (access_token)`: a granted but empty token counts as missing. */
  predicate Authorized(c: TokenCheck)
  {
    c.Granted? && c.accessToken != ""
  }

  /** A user whose first row in the table is active is granted that row's token. */
  lemma ActiveFirstRowGrants(rows: seq<TokenRow>, team: string, user: string, i: nat)
    requires i < |rows| && rows[i].teamId == team && rows[i].userId == user
    requires rows[i].state == Active
    requires forall j :: 0 <= j < i ==> !(rows[j].teamId == team && rows[j].userId == user)
    ensures CheckToken(Some(rows), team, user) == Granted(rows[i].accessToken)
  {
    FirstMatch(rows, team, user, i);
  }

  /** A user whose first row in the table is inactive is denied, whatever later rows say. */
  lemma InactiveFirstRowDenies(rows: seq<TokenRow>, team: string, user: string, i: nat)
    requires i < |rows| && rows[i].teamId == team && rows[i].userId == user
    requires rows[i].state != Active
    requires forall j :: 0 <= j < i ==> !(rows[j].teamId == team && rows[j].userId == user)
    ensures CheckToken(Some(rows), team, user) == NoToken
  {
    FirstMatch(rows, team, user, i);
  }
}
