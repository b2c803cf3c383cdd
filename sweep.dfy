/**
 * The sweep: `scheduled_event` reads the bucket of the current UTC
 * day and hands every pending, due row whose payload validates to
 * `slack_post_message`, which posts it with the owner's token and deletes
 * the row once Slack answers `ok`.
 */
module Sweep {

  import opened Wrappers
  import opened Clock
  import opened Slack
  import opened Credentials
  import opened JsText
  import opened Messages
  import opened Commands

  /** How Slack and the store answer for one row: posted (and whether the delete then succeeded), not ok, or an error. */
  datatype Delivery = Posted(deleteOk: bool) | NotOk | PostFailed

  /**
   * The tokens table as the `check_token` query of each row's post sees it,
   * by row key: `None` when that row's query rejects. Each post issues its
   * own query, so one row's query can fail while another's succeeds.
   */
  type TokenAnswers = Key -> Option<seq<TokenRow>>

  /** A `chat.postMessage` call: channel, text, and the token it is made with. */
  datatype Post = Post(channel: string, text: Option<string>, accessToken: string)

  /** The row is pending and its stored instant is at or before `now`; an unparsable instant is never due. */
  predicate Due(r: Row, now: Instant)
  {
    r.state == Pending &&
    match ParseIso(r.isoDate)
    case Some(d) => AtOrBefore(d, now)
    case None => false
  }

  /** The row is due, its payload validates, and its owner holds an active, non-empty token. */
  predicate Sent(cfg: Config, tokens: TokenAnswers, now: Instant, r: Row)
  {
    Due(r, now) && ValidatePayload(cfg, r.payload)
    && Authorized(CheckToken(tokens(KeyOf(r)), r.payload.teamId, r.payload.userId))
  }

  /** `Sent` at one sweep, as the choice the walk makes for each row. */
  function SentBy(cfg: Config, tokens: TokenAnswers, now: Instant): Row -> bool
  {
    r => Sent(cfg, tokens, now, r)
  }

  /** The token a check grants, or the empty string. */
  function TokenOf(c: TokenCheck): string
  {
    if c.Granted? then c.accessToken else ""
  }

  /** The post made for row `r`: its payload's channel and cleaned text, with its owner's token. */
  function PostOf(tokens: TokenAnswers, r: Row): Post
  {
    Post(r.payload.channelId, r.payload.cleanText, TokenOf(CheckToken(tokens(KeyOf(r)), r.payload.teamId, r.payload.userId)))
  }

  /** The keys one sweep at `now` removes from `rows`. */
  ghost function Swept(cfg: Config, tokens: TokenAnswers, now: Instant, outcome: Key -> Delivery,
                       rows: map<Key, Row>): set<Key>
  {
    set k | k in rows && Matches(ByDate(now), rows[k]) && Sent(cfg, tokens, now, rows[k]) && outcome(k) == Posted(true)
  }

  /** `slack_post_message(id, ymd, date_id, payload)`. */
  method PostMessage(t: MessageTable, k: Key, payload: Payload, tokens: Option<seq<TokenRow>>, outcome: Delivery)
    returns (post: Option<Post>)
    requires t.Valid()
    modifies t
    ensures t.Valid()
    ensures post.Some? <==> Authorized(CheckToken(tokens, payload.teamId, payload.userId))
    ensures post.Some? ==> post.value == Post(payload.channelId, payload.cleanText,
                                              TokenOf(CheckToken(tokens, payload.teamId, payload.userId)))
    ensures t.rows == if post.Some? && outcome == Posted(true) then old(t.rows) - {k} else old(t.rows)
  {
    var check := CheckToken(tokens, payload.teamId, payload.userId);
    if !Authorized(check) {
      return None;
    }
    post := Some(Post(payload.channelId, payload.cleanText, check.accessToken));
    if outcome.Posted? {
      var _ := t.Delete(k, outcome.deleteOk);
    }
  }

  /** One pass of the loop in `scheduled_event`: post the row when it is due and valid, and delete it when Slack says ok. */
  method SweepRow(t: MessageTable, cfg: Config, tokens: TokenAnswers, now: Instant, item: Row,
                  outcome: Delivery)
    returns (post: Option<Post>)
    requires t.Valid()
    modifies t
    ensures t.Valid()
    ensures post.Some? <==> Sent(cfg, tokens, now, item)
    ensures post.Some? ==> post.value == PostOf(tokens, item)
    ensures t.rows == if post.Some? && outcome == Posted(true) then old(t.rows) - {KeyOf(item)} else old(t.rows)
  {
    post := None;
    if Due(item, now) && ValidatePayload(cfg, item.payload) {
      post := PostMessage(t, Key(item.ymd, item.dateId), item.payload, tokens(KeyOf(item)), outcome);
    }
  }

  /** The posts made while walking `items`, in their order, where `sent` picks the rows that are posted. */
  function Deliveries(sent: Row -> bool, tokens: TokenAnswers, items: seq<Row>): seq<Post>
  {
    if items == [] then []
    else
      var last := items[|items| - 1];
      Deliveries(sent, tokens, items[..|items| - 1]) + (if sent(last) then [PostOf(tokens, last)] else [])
  }

  /** The keys deleted while walking `items`. */
  ghost function Removed(sent: Row -> bool, outcome: Key -> Delivery, items: seq<Row>): set<Key>
  {
    if items == [] then {}
    else
      var last := items[|items| - 1];
      Removed(sent, outcome, items[..|items| - 1])
      + (if sent(last) && outcome(KeyOf(last)) == Posted(true) then {KeyOf(last)} else {})
  }

  /**
   * `scheduled_event`: one run of the sweep at `now`. It returns the posts
   * made; `outcome` gives Slack's and the store's answer for each row.
   */
  method ScheduledEvent(t: MessageTable, cfg: Config, tokens: TokenAnswers, now: Instant,
                        readOk: bool, outcome: Key -> Delivery)
    returns (posts: seq<Post>)
    requires t.Valid()
    modifies t
    ensures t.Valid()
    ensures !readOk ==> posts == [] && t.rows == old(t.rows)
    ensures readOk ==> t.rows == old(t.rows) - Swept(cfg, tokens, now, outcome, old(t.rows))
    ensures readOk ==> forall p :: p in posts <==>
              exists r :: r in old(t.rows).Values && Matches(ByDate(now), r) && Sent(cfg, tokens, now, r)
                          && p == PostOf(tokens, r)
    ensures readOk ==> exists items :: Enumerates(old(t.rows), ByDate(now), items)
                                       && posts == Deliveries(SentBy(cfg, tokens, now), tokens, items)
  {
    posts := [];
    var items := t.Query(ByDate(now), readOk);
    if items.None? {
      return;
    }
    ghost var before := t.rows;
    ghost var sent := SentBy(cfg, tokens, now);
    posts := SweepItems(t, cfg, tokens, now, outcome, items.value, sent);
    WalkDone(cfg, tokens, now, outcome, sent, before, items.value, t.rows, posts);
    assert Enumerates(before, ByDate(now), items.value);
  }

  /** The loop of `scheduled_event`: each row in turn, posted when `sent` picks it and removed once posted and deleted. */
  method SweepItems(t: MessageTable, cfg: Config, tokens: TokenAnswers, now: Instant,
                    outcome: Key -> Delivery, rows: seq<Row>, ghost sent: Row -> bool)
    returns (posts: seq<Post>)
    requires t.Valid()
    requires forall r :: sent(r) == Sent(cfg, tokens, now, r)
    modifies t
    ensures t.Valid()
    ensures t.rows == old(t.rows) - Removed(sent, outcome, rows)
    ensures posts == Deliveries(sent, tokens, rows)
  {
    ghost var before := t.rows;
    posts := [];
    var i := 0;
    while i < |rows|
      invariant 0 <= i <= |rows|
      invariant t.Valid()
      invariant t.rows == before - Removed(sent, outcome, rows[..i])
      invariant posts == Deliveries(sent, tokens, rows[..i])
    {
      var item := rows[i];
      ghost var current, prior := t.rows, posts;
      var post := SweepRow(t, cfg, tokens, now, item, outcome(KeyOf(item)));
      if post.Some? {
        posts := posts + [post.value];
      }
      i := i + 1;
      WalkStep(sent, tokens, outcome, rows, i, before, current, t.rows, prior, post, posts);
    }
    assert rows[..i] == rows;
  }

  /** After the whole bucket is walked, the table has lost the swept keys and the posts are those of the sent rows. */
  lemma WalkDone(cfg: Config, tokens: TokenAnswers, now: Instant, outcome: Key -> Delivery,
                 sent: Row -> bool, before: map<Key, Row>, rows: seq<Row>, after: map<Key, Row>, posts: seq<Post>)
    requires forall r :: sent(r) == Sent(cfg, tokens, now, r)
    requires forall k | k in before :: KeyOf(before[k]) == k
    requires forall r :: r in rows <==> r in before.Values && Matches(ByDate(now), r)
    requires after == before - Removed(sent, outcome, rows)
    requires posts == Deliveries(sent, tokens, rows)
    ensures after == before - Swept(cfg, tokens, now, outcome, before)
    ensures forall p :: p in posts <==>
              exists r :: r in before.Values && Matches(ByDate(now), r) && Sent(cfg, tokens, now, r)
                          && p == PostOf(tokens, r)
  {
    SweptIsRemoved(cfg, tokens, now, outcome, sent, before, rows);
    DeliveriesOfBucket(cfg, tokens, now, sent, before, rows);
  }

  /** Removing one more key, or none, from what is left is removing the larger set from the start. */
  lemma RemoveStep(m: map<Key, Row>, gone: set<Key>, k: Key, hit: bool, current: map<Key, Row>, next: map<Key, Row>)
    requires current == m - gone
    requires next == if hit then current - {k} else current
    ensures next == m - (gone + (if hit then {k} else {}))
  {
    if hit {
      assert (m - gone) - {k} == m - (gone + {k});
    } else {
      assert gone + {} == gone;
    }
  }

  /**
   * The `n`-th row of the walk adds its post when it is sent, and takes its
   * key out of the table when it is posted and then deleted.
   */
  lemma WalkStep(sent: Row -> bool, tokens: TokenAnswers, outcome: Key -> Delivery, items: seq<Row>, n: nat,
                 before: map<Key, Row>, current: map<Key, Row>, next: map<Key, Row>,
                 posts: seq<Post>, post: Option<Post>, extended: seq<Post>)
    requires 0 < n <= |items|
    requires current == before - Removed(sent, outcome, items[..n - 1])
    requires posts == Deliveries(sent, tokens, items[..n - 1])
    requires post.Some? == sent(items[n - 1]) && (post.Some? ==> post.value == PostOf(tokens, items[n - 1]))
    requires next == if post.Some? && outcome(KeyOf(items[n - 1])) == Posted(true) then current - {KeyOf(items[n - 1])}
                     else current
    requires extended == if post.Some? then posts + [post.value] else posts
    ensures extended == Deliveries(sent, tokens, items[..n])
    ensures next == before - Removed(sent, outcome, items[..n])
  {
    assert items[..n][..n - 1] == items[..n - 1];
    RemoveStep(before, Removed(sent, outcome, items[..n - 1]), KeyOf(items[n - 1]),
               sent(items[n - 1]) && outcome(KeyOf(items[n - 1])) == Posted(true), current, next);
  }

  /** A post is made while walking `items` exactly when it is the post of one of the rows `sent` picks. */
  lemma {:induction false} DeliveriesOf(sent: Row -> bool, tokens: TokenAnswers, items: seq<Row>, p: Post)
    ensures p in Deliveries(sent, tokens, items) <==>
            exists j :: 0 <= j < |items| && sent(items[j]) && p == PostOf(tokens, items[j])
  {
    if items != [] {
      var init := items[..|items| - 1];
      DeliveriesOf(sent, tokens, init, p);
      if exists j :: 0 <= j < |items| && sent(items[j]) && p == PostOf(tokens, items[j]) {
        var j :| 0 <= j < |items| && sent(items[j]) && p == PostOf(tokens, items[j]);
        if j < |items| - 1 {
          assert init[j] == items[j];
        }
      }
    }
  }

  /** A key is removed while walking `items` exactly when a picked row under it was posted and then deleted. */
  lemma {:induction false} RemovedOf(sent: Row -> bool, outcome: Key -> Delivery, items: seq<Row>, k: Key)
    ensures k in Removed(sent, outcome, items) <==>
            exists j :: 0 <= j < |items| && sent(items[j]) && outcome(KeyOf(items[j])) == Posted(true)
                        && k == KeyOf(items[j])
  {
    if items != [] {
      var init := items[..|items| - 1];
      RemovedOf(sent, outcome, init, k);
      if exists j :: 0 <= j < |items| && sent(items[j]) && outcome(KeyOf(items[j])) == Posted(true)
                     && k == KeyOf(items[j]) {
        var j :| 0 <= j < |items| && sent(items[j]) && outcome(KeyOf(items[j])) == Posted(true)
                 && k == KeyOf(items[j]);
        if j < |items| - 1 {
          assert init[j] == items[j];
        }
      }
    }
  }

  /** Walking the rows of the bucket posts exactly for its sent rows. */
  lemma DeliveriesOfBucket(cfg: Config, tokens: TokenAnswers, now: Instant, sent: Row -> bool,
                           before: map<Key, Row>, rows: seq<Row>)
    requires forall r :: sent(r) == Sent(cfg, tokens, now, r)
    requires forall r :: r in rows <==> r in before.Values && Matches(ByDate(now), r)
    ensures forall p :: p in Deliveries(sent, tokens, rows) <==>
              exists r :: r in before.Values && Matches(ByDate(now), r) && Sent(cfg, tokens, now, r)
                          && p == PostOf(tokens, r)
  {
    forall p ensures p in Deliveries(sent, tokens, rows) <==>
      exists r :: r in before.Values && Matches(ByDate(now), r) && Sent(cfg, tokens, now, r) && p == PostOf(tokens, r)
    {
      DeliveriesOf(sent, tokens, rows, p);
      if exists r :: r in before.Values && Matches(ByDate(now), r) && Sent(cfg, tokens, now, r) && p == PostOf(tokens, r) {
        var r :| r in before.Values && Matches(ByDate(now), r) && Sent(cfg, tokens, now, r) && p == PostOf(tokens, r);
        var j :| 0 <= j < |rows| && rows[j] == r;
      }
    }
  }

  /** Walking the rows of the bucket removes exactly the swept keys. */
  lemma SweptIsRemoved(cfg: Config, tokens: TokenAnswers, now: Instant, outcome: Key -> Delivery,
                       sent: Row -> bool, before: map<Key, Row>, rows: seq<Row>)
    requires forall r :: sent(r) == Sent(cfg, tokens, now, r)
    requires forall k | k in before :: KeyOf(before[k]) == k
    requires forall r :: r in rows <==> r in before.Values && Matches(ByDate(now), r)
    ensures before - Removed(sent, outcome, rows) == before - Swept(cfg, tokens, now, outcome, before)
  {
    forall k | k in before
      ensures k in Removed(sent, outcome, rows) <==> k in Swept(cfg, tokens, now, outcome, before)
    {
      RemovedOf(sent, outcome, rows, k);
      if k in Swept(cfg, tokens, now, outcome, before) {
        assert before[k] in rows;
        var j :| 0 <= j < |rows| && rows[j] == before[k];
      }
      if k in Removed(sent, outcome, rows) {
        var j :| 0 <= j < |rows| && sent(rows[j]) && outcome(KeyOf(rows[j])) == Posted(true)
                 && k == KeyOf(rows[j]);
        assert rows[j] in before.Values;
      }
    }
  }

  // ---------------------------------------------------------------------------
  // What the sweep promises, and what it does not

  /**
   * A message the schedule pipeline stored is posted to its channel, with
   * its cleaned text and its owner's token, and its row removed, by any sweep
   * on its own UTC day at or after its instant, as long as the owner still
   * holds an active token and Slack and the store answer ok.
   */
  lemma StoredMessageIsDelivered(cfg: Config, p: Payload, text: string, ext: Externals,
                                 date: Instant, stored: Payload,
                                 rows: map<Key, Row>, tokens: TokenAnswers, now: Instant,
                                 outcome: Key -> Delivery)
    requires Decide(cfg, p, text, ext.spans, ext.tokens) == Store(date, stored)
    requires var r := NewRow(date, stored, ext.freshId, ext.clock);
             && KeyOf(r) in rows && rows[KeyOf(r)] == r
             && AtOrBefore(date, now) && Ymd(date) == Ymd(now)
             && Authorized(CheckToken(tokens(KeyOf(r)), p.teamId, p.userId))
             && outcome(KeyOf(r)) == Posted(true)
    ensures var r := NewRow(date, stored, ext.freshId, ext.clock);
            && KeyOf(r) in Swept(cfg, tokens, now, outcome, rows)
            && PostOf(tokens, r) == Post(p.channelId, Some(Trim(Prefix(text, ext.spans[|ext.spans| - 1].index))),
                                         TokenOf(CheckToken(tokens(KeyOf(r)), p.teamId, p.userId)))
  {
    var r := NewRow(date, stored, ext.freshId, ext.clock);
    StoredRowIsSent(cfg, tokens, now, date, stored, ext.freshId, ext.clock);
    assert KeyOf(r) in rows && rows[KeyOf(r)] == r;
  }

  /** The row written for a validated, authorized request is sent by a sweep of its day at or after its instant. */
  lemma StoredRowIsSent(cfg: Config, tokens: TokenAnswers, now: Instant,
                        date: Instant, stored: Payload, id: string, clock: int)
    requires ValidatePayload(cfg, stored)
    requires Authorized(CheckToken(tokens(KeyOf(NewRow(date, stored, id, clock))), stored.teamId, stored.userId))
    requires AtOrBefore(date, now) && Ymd(date) == Ymd(now)
    ensures Matches(ByDate(now), NewRow(date, stored, id, clock))
    ensures Sent(cfg, tokens, now, NewRow(date, stored, id, clock))
  {
    NewRowShape(date, stored, id, clock);
  }

  /**
   * A row is swept only by a sweep on its own UTC day, at or after its
   * instant: a row still pending when that day ends is never posted.
   */
  lemma SweptOnlyOnItsDay(cfg: Config, tokens: TokenAnswers, now: Instant, outcome: Key -> Delivery,
                          rows: map<Key, Row>, k: Key, date: Instant, p: Payload, id: string, clock: int)
    requires k in rows && rows[k] == NewRow(date, p, id, clock)
    requires k in Swept(cfg, tokens, now, outcome, rows)
    ensures AtOrBefore(date, now)
    ensures date.year == now.year && date.month == now.month && date.day == now.day
  {
    NewRowShape(date, p, id, clock);
    SameYmd(date, now);
  }

  const LateEvening: Instant := DateTime(2018, 3, 4, 23, 59, 30, 0)
  const JustAfterMidnight: Instant := DateTime(2018, 3, 5, 0, 0, 10, 0)

  /** A message due 30 seconds before midnight and not swept by then is due but missed by the next sweep. */
  lemma MidnightMiss(cfg: Config, tokens: TokenAnswers, outcome: Key -> Delivery,
                     rows: map<Key, Row>, p: Payload, id: string, clock: int)
    requires var r := NewRow(LateEvening, p, id, clock); KeyOf(r) in rows && rows[KeyOf(r)] == r
    ensures Due(NewRow(LateEvening, p, id, clock), JustAfterMidnight)
    ensures KeyOf(NewRow(LateEvening, p, id, clock)) !in Swept(cfg, tokens, JustAfterMidnight, outcome, rows)
  {
    var r := NewRow(LateEvening, p, id, clock);
    NewRowShape(LateEvening, p, id, clock);
    if KeyOf(r) in Swept(cfg, tokens, JustAfterMidnight, outcome, rows) {
      SweptOnlyOnItsDay(cfg, tokens, JustAfterMidnight, outcome, rows, KeyOf(r), LateEvening, p, id, clock);
    }
  }

  /**
   * Delivery is at least once, not exactly once: when the delete after an
   * ok post fails, the row stays, and every later sweep of the same day
   * posts it again.
   */
  lemma FailedDeleteRepeats(cfg: Config, tokens: TokenAnswers, now: Instant, later: Instant,
                            outcome: Key -> Delivery, rows: map<Key, Row>, k: Key)
    requires k in rows
    requires Matches(ByDate(now), rows[k]) && Sent(cfg, tokens, now, rows[k])
    requires outcome(k) == Posted(false)
    requires AtOrBefore(now, later) && Ymd(later) == Ymd(now)
    ensures k !in Swept(cfg, tokens, now, outcome, rows)
    ensures Matches(ByDate(later), rows[k]) && Sent(cfg, tokens, later, rows[k])
  {
    var d := ParseIso(rows[k].isoDate).value;
    AtOrBeforeTransitive(d, now, later);
  }

  /** Rows outside today's bucket, not yet due, failing validation, without a token, or not posted ok are kept. */
  lemma SweepKeepsUnsentRows(cfg: Config, tokens: TokenAnswers, now: Instant, outcome: Key -> Delivery,
                             rows: map<Key, Row>, k: Key)
    requires k in rows
    requires !Matches(ByDate(now), rows[k]) || !Due(rows[k], now) || !ValidatePayload(cfg, rows[k].payload)
             || !Authorized(CheckToken(tokens(KeyOf(rows[k])), rows[k].payload.teamId, rows[k].payload.userId))
             || outcome(k) != Posted(true)
    ensures k !in Swept(cfg, tokens, now, outcome, rows)
  {
  }
}
