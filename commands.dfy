/**
 * The slash-command side of the handler: `send_message_helper` (the
 * schedule pipeline), `list_messages_helper`, `delete_message_helper`
 * and `slack_command`, which routes to them.
 */
module Commands {

  import opened Wrappers
  import opened JsText
  import opened Clock
  import opened DateParse
  import opened Slack
  import opened Credentials
  import opened Messages
  import opened Routing

  /**
   * What one command invocation gets from outside: the date parser's spans
   * for the command text, a fresh message id, the clock in milliseconds,
   * the tokens table (`None` when its query rejects), and whether the
   * messages table accepts this invocation's read and write.
   */
  datatype Externals = Externals(spans: seq<Span>, freshId: string, clock: int,
                                 tokens: Option<seq<TokenRow>>, readOk: bool, writeOk: bool)

  // ---------------------------------------------------------------------------
  // Scheduling

  /** The branch `send_message_helper` takes, in the order it tests them. */
  datatype Decision =
    | NoDate
    | NoMessage
    | NotValidated
    | TokenError
    | TokenMissing
    | Store(date: Instant, stored: Payload)

  /**
   * The decision tree of `send_message_helper`: no date, then an empty body,
   * then the payload token, then the credential; only then is the row
   * persisted, with the payload that now carries the cleaned text.
   */
  function Decide(cfg: Config, p: Payload, text: string, spans: seq<Span>,
                  tokens: Option<seq<TokenRow>>): (d: Decision)
    ensures d == NoDate <==> spans == []
    ensures d == NoMessage <==> spans != [] && AllSpace(Prefix(text, spans[|spans| - 1].index))
    ensures d == NotValidated <==>
              spans != [] && !AllSpace(Prefix(text, spans[|spans| - 1].index)) && p.token != cfg.appToken
    ensures d == TokenError <==>
              spans != [] && !AllSpace(Prefix(text, spans[|spans| - 1].index)) && p.token == cfg.appToken
              && tokens.None?
    ensures d.Store? <==>
              spans != [] && !AllSpace(Prefix(text, spans[|spans| - 1].index)) && p.token == cfg.appToken
              && Authorized(CheckToken(tokens, p.teamId, p.userId))
    ensures d.Store? ==> d.date == spans[|spans| - 1].start
                         && d.stored == p.(cleanText := Some(Trim(Prefix(text, spans[|spans| - 1].index))))
  {
    match ParseDate(text, spans)
    case None => NoDate
    case Some(parsed) =>
      var stored := p.(cleanText := Some(parsed.cleanText));
      if |parsed.cleanText| == 0 then NoMessage
      else if !ValidatePayload(cfg, stored) then NotValidated
      else TokenDecision(CheckToken(tokens, p.teamId, p.userId), parsed.date, stored)
  }

  /** The branch taken once `check_token` settles: rejected, granted a usable token, or not. */
  function TokenDecision(check: TokenCheck, date: Instant, stored: Payload): (d: Decision)
    ensures d == TokenError <==> check.QueryFailed?
    ensures d.Store? <==> Authorized(check)
    ensures d.Store? ==> d == Store(date, stored)
    ensures d == TokenError || d == TokenMissing || d.Store?
  {
    if check.QueryFailed? then TokenError
    else if Authorized(check) then Store(date, stored)
    else TokenMissing
  }

  /** The footer lead of an acknowledgement or listing attachment. */
  const IdFooter := "Message ID: "

  /** The acknowledgement attachment: channel, date, cleaned text and the stored id. */
  function AckAttachment(p: Payload, date: Instant, id: string): Attachment
  {
    Attachment(ChannelAuthor(p), Some(Formatted(date)), p.cleanText, Some(IdFooter + id), None, false)
  }

  /** The reply `send_message_helper` sends for decision `d`; `stored` is what the persist call returned. */
  function ScheduleReply(cfg: Config, p: Payload, text: string, d: Decision, stored: Option<string>): Body
  {
    match d
    case NoDate =>
      Body(Some(Ephemeral), Some(MsgErrNoDate),
           Some([Attachment(ChannelAuthor(p), None, p.text, None, None, false)]))
    case NoMessage => WithText(CommandBody, MsgErrNoMessage + text)
    case NotValidated => Body(None, Some(MsgErrValidation), None)
    case TokenError => WithText(CommandBody, MsgErr)
    case TokenMissing => WithText(CommandBody, MsgErrMissingToken(cfg))
    case Store(date, payload) =>
      if stored.Some? then Body(Some(Ephemeral), Some(MsgAck), Some([AckAttachment(payload, date, stored.value)]))
      else WithText(CommandBody, MsgErr)
  }

  /** What `send_message_helper` does to the table and which reply it sends. */
  ghost predicate ScheduleEffect(cfg: Config, p: Payload, text: string, ext: Externals,
                                 before: map<Key, Row>, after: map<Key, Row>, body: Body)
  {
    EffectOf(cfg, p, text, Decide(cfg, p, text, ext.spans, ext.tokens), ext, before, after, body)
  }

  /** The table change and reply for decision `d`: a row is written only for `Store`, and only when the write succeeds. */
  ghost predicate EffectOf(cfg: Config, p: Payload, text: string, d: Decision, ext: Externals,
                           before: map<Key, Row>, after: map<Key, Row>, body: Body)
  {
    if d.Store? && ext.writeOk then
      var r := NewRow(d.date, d.stored, ext.freshId, ext.clock);
      after == before[KeyOf(r) := r] && body == ScheduleReply(cfg, p, text, d, Some(ext.freshId))
    else
      after == before && body == ScheduleReply(cfg, p, text, d, None)
  }

  /** `send_message_helper(team_id, user_id, payload, text, body, callback)`. */
  method SendMessage(t: MessageTable, cfg: Config, p: Payload, text: string, ext: Externals)
    returns (body: Body)
    requires t.Valid()
    modifies t
    ensures t.Valid()
    ensures ScheduleEffect(cfg, p, text, ext, old(t.rows), t.rows, body)
  {
    ghost var d := Decide(cfg, p, text, ext.spans, ext.tokens);
    var parsed := ParseDate(text, ext.spans);
    if parsed.None? {
      assert d == NoDate;
      body := Body(Some(Ephemeral), Some(MsgErrNoDate),
                   Some([Attachment(ChannelAuthor(p), None, p.text, None, None, false)]));
      return;
    }
    var payload := p.(cleanText := Some(parsed.value.cleanText));
    if |parsed.value.cleanText| == 0 {
      assert d == NoMessage;
      body := WithText(CommandBody, MsgErrNoMessage + text);
      return;
    }
    if !ValidatePayload(cfg, payload) {
      assert d == NotValidated;
      body := Body(None, Some(MsgErrValidation), None);
      return;
    }
    var check := CheckToken(ext.tokens, p.teamId, p.userId);
    assert d == TokenDecision(check, parsed.value.date, payload);
    body := OnTokenChecked(t, cfg, p, text, ext, check, parsed.value.date, payload);
  }

  /** The continuation of `check_token` in `send_message_helper`: persist and acknowledge, or report the failure. */
  method OnTokenChecked(t: MessageTable, cfg: Config, p: Payload, text: string, ext: Externals,
                        check: TokenCheck, date: Instant, payload: Payload)
    returns (body: Body)
    requires t.Valid()
    modifies t
    ensures t.Valid()
    ensures EffectOf(cfg, p, text, TokenDecision(check, date, payload), ext, old(t.rows), t.rows, body)
  {
    if check.QueryFailed? {
      body := WithText(CommandBody, MsgErr);
    } else if Authorized(check) {
      assert TokenDecision(check, date, payload) == Store(date, payload);
      var stored := t.Persist(date, payload, ext.freshId, ext.clock, ext.writeOk);
      if stored.Some? {
        body := Body(Some(Ephemeral), Some(MsgAck), Some([AckAttachment(payload, date, stored.value)]));
      } else {
        body := WithText(CommandBody, MsgErr);
      }
    } else {
      body := WithText(CommandBody, MsgErrMissingToken(cfg));
    }
  }

  /**
   * A stored message can be found again: its owner finds it by id, it is
   * pending, its payload validates, and it keeps the destination and the
   * cleaned text; the acknowledgement quotes the id it was stored under.
   */
  lemma StoredMessageRoundTrip(cfg: Config, p: Payload, text: string, ext: Externals, date: Instant, stored: Payload)
    requires Decide(cfg, p, text, ext.spans, ext.tokens) == Store(date, stored)
    ensures var r := NewRow(date, stored, ext.freshId, ext.clock);
            Matches(ById(p.teamId, p.userId, ext.freshId), r) && Listed(cfg, r) && r.channelId == p.channelId
    ensures stored.cleanText == Some(ParseDate(text, ext.spans).value.cleanText) && stored.cleanText != Some("")
    ensures ParseIso(NewRow(date, stored, ext.freshId, ext.clock).isoDate) == Some(date)
    ensures ScheduleReply(cfg, p, text, Store(date, stored), Some(ext.freshId)).attachments
            == Some([AckAttachment(stored, date, ext.freshId)])
    ensures AckAttachment(stored, date, ext.freshId).footer == Some(IdFooter + NewRow(date, stored, ext.freshId, ext.clock).id)
  {
    assert stored.cleanText == Some(ParseDate(text, ext.spans).value.cleanText) && stored.cleanText != Some("")
           && ValidatePayload(cfg, stored)
           && stored.channelId == p.channelId && stored.teamId == p.teamId && stored.userId == p.userId;
    NewRowShape(date, stored, ext.freshId, ext.clock);
  }

  /** Nothing is written when the date, the body, the token or the credential is missing. */
  lemma RejectedRequestWritesNothing(cfg: Config, p: Payload, text: string, ext: Externals,
                                     before: map<Key, Row>, after: map<Key, Row>, body: Body)
    requires ScheduleEffect(cfg, p, text, ext, before, after, body)
    requires ext.spans == [] || p.token != cfg.appToken
             || AllSpace(Prefix(text, ext.spans[|ext.spans| - 1].index))
             || !Authorized(CheckToken(ext.tokens, p.teamId, p.userId))
    ensures after == before
    ensures body.text != Some(MsgAck)
  {
  }

  // ---------------------------------------------------------------------------
  // Listing

  /** A row the listing shows: pending and carrying a payload that validates. */
  predicate Listed(cfg: Config, r: Row)
  {
    r.state == Pending && ValidatePayload(cfg, r.payload)
  }

  /** A pending row whose payload fails validation: it turns the heading into a warning. */
  predicate Invalid(cfg: Config, r: Row)
  {
    r.state == Pending && !ValidatePayload(cfg, r.payload)
  }

  /** The title `get_date_formatted(new Date(iso_date))`. */
  function StoredDate(r: Row): DateLabel
  {
    match ParseIso(r.isoDate)
    case Some(d) => Formatted(d)
    case None => InvalidDate
  }

  /** The attachment listing one message, with its Delete button. */
  function ListAttachment(r: Row): Attachment
  {
    Attachment(ChannelAuthor(r.payload), Some(StoredDate(r)), r.payload.cleanText,
               Some(IdFooter + r.id), Some(r.id), true)
  }

  /** The attachments for `items`, in their order. */
  function Listing(cfg: Config, items: seq<Row>): seq<Attachment>
  {
    if items == [] then []
    else
      var last := items[|items| - 1];
      Listing(cfg, items[..|items| - 1]) + (if Listed(cfg, last) then [ListAttachment(last)] else [])
  }

  const ListHeading := "Your messages:\n"
  const ListWarning := "Some of your messages did not have valid tokens."
  const ListEmpty := "You do not have any messages scheduled."
  const ListError := "Unable to get your scheduled messages."

  /** The loop of `list_messages_helper` over a non-empty query result. */
  method RenderListing(cfg: Config, items: seq<Row>) returns (text: string, atts: seq<Attachment>)
    ensures atts == Listing(cfg, items)
    ensures (exists i :: 0 <= i < |items| && Invalid(cfg, items[i])) ==> text == ListWarning
    ensures (forall i :: 0 <= i < |items| ==> !Invalid(cfg, items[i])) ==> text == ListHeading
  {
    text := ListHeading;
    atts := [];
    var i := 0;
    while i < |items|
      invariant 0 <= i <= |items|
      invariant atts == Listing(cfg, items[..i])
      invariant text == ListHeading || text == ListWarning
      invariant text == ListWarning <==> exists j :: 0 <= j < i && Invalid(cfg, items[j])
    {
      var item := items[i];
      if item.state == Pending {
        if ValidatePayload(cfg, item.payload) {
          atts := atts + [ListAttachment(item)];
        } else {
          text := ListWarning;
        }
      }
      assert items[..i + 1][..i] == items[..i];
      i := i + 1;
    }
    assert items[..i] == items;
  }

  /** The listing shows exactly the listed rows, each as its attachment. */
  lemma {:induction false} ListingShowsListed(cfg: Config, items: seq<Row>, a: Attachment)
    ensures a in Listing(cfg, items) <==> exists i :: 0 <= i < |items| && Listed(cfg, items[i]) && a == ListAttachment(items[i])
  {
    if items != [] {
      var init := items[..|items| - 1];
      ListingShowsListed(cfg, init, a);
      if a in Listing(cfg, items) && a !in Listing(cfg, init) {
        assert Listed(cfg, items[|items| - 1]) && a == ListAttachment(items[|items| - 1]);
      }
      if exists i :: 0 <= i < |items| && Listed(cfg, items[i]) && a == ListAttachment(items[i]) {
        var i :| 0 <= i < |items| && Listed(cfg, items[i]) && a == ListAttachment(items[i]);
        if i < |items| - 1 {
          assert init[i] == items[i];
        }
      }
    }
  }

  /** What `list_messages_helper` replies, given the rows of the table. */
  ghost predicate ListEffect(cfg: Config, team: string, user: string, rt: ResponseType, readOk: bool,
                             rows: map<Key, Row>, body: Body)
  {
    var mine := set r | r in rows.Values && Matches(ByUser(team, user), r);
    if !readOk then body == Body(Some(rt), Some(ListError), Some([]))
    else if mine == {} then body == Body(Some(rt), Some(ListEmpty), Some([]))
    else
      && body.responseType == Some(rt)
      && body.text == Some(if exists r :: r in mine && Invalid(cfg, r) then ListWarning else ListHeading)
      && body.attachments.Some?
      && (forall a :: a in body.attachments.value <==> exists r :: r in mine && Listed(cfg, r) && a == ListAttachment(r))
      && exists items :: Enumerates(rows, ByUser(team, user), items) && body.attachments == Some(Listing(cfg, items))
  }

  /** `list_messages_helper(team_id, user_id, body, callback)`, with the response type the router chose. */
  method ListMessages(t: MessageTable, cfg: Config, team: string, user: string, rt: ResponseType, readOk: bool)
    returns (body: Body)
    requires t.Valid()
    ensures ListEffect(cfg, team, user, rt, readOk, t.rows, body)
  {
    var items := t.Query(ByUser(team, user), readOk);
    if items.None? {
      return Body(Some(rt), Some(ListError), Some([]));
    }
    var rows := items.value;
    ghost var mine := set r | r in t.rows.Values && Matches(ByUser(team, user), r);
    if |rows| == 0 {
      assert mine == {};
      return Body(Some(rt), Some(ListEmpty), Some([]));
    }
    assert rows[0] in mine;
    var text, atts := RenderListing(cfg, rows);
    body := Body(Some(rt), Some(text), Some(atts));
    ListingOfSet(cfg, rows, mine);
    assert Enumerates(t.rows, ByUser(team, user), rows);
  }

  /** Listing a sequence that holds exactly the rows of `mine` shows the listed rows of `mine` and warns about its invalid ones. */
  lemma ListingOfSet(cfg: Config, rows: seq<Row>, mine: set<Row>)
    requires forall r :: r in rows <==> r in mine
    ensures (exists i :: 0 <= i < |rows| && Invalid(cfg, rows[i])) <==> (exists r :: r in mine && Invalid(cfg, r))
    ensures forall a :: a in Listing(cfg, rows) <==> exists r :: r in mine && Listed(cfg, r) && a == ListAttachment(r)
  {
    if exists r :: r in mine && Invalid(cfg, r) {
      var r :| r in mine && Invalid(cfg, r);
      var i :| 0 <= i < |rows| && rows[i] == r;
    }
    forall a ensures a in Listing(cfg, rows) <==> exists r :: r in mine && Listed(cfg, r) && a == ListAttachment(r) {
      ListingShowsListed(cfg, rows, a);
      if exists r :: r in mine && Listed(cfg, r) && a == ListAttachment(r) {
        var r :| r in mine && Listed(cfg, r) && a == ListAttachment(r);
        var i :| 0 <= i < |rows| && rows[i] == r;
      }
    }
  }

  // ---------------------------------------------------------------------------
  // Deleting

  const DeleteLookupError := "We encountered an error while looking for message with ID: "
  const DeleteNotFound := "Unable to find message with ID: "
  const DeleteDone := "Deleted message with ID: "
  /** Spelled as the handler spells it. */
  const DeleteFailed := "Unable to deleted message with ID: "

  /** What `delete_message_helper` does: remove the first row the owner-scoped id lookup returns. */
  ghost predicate DeleteEffect(team: string, user: string, id: string, readOk: bool, writeOk: bool,
                               before: map<Key, Row>, after: map<Key, Row>, body: Body)
  {
    if !readOk then
      after == before && body == WithText(CommandBody, DeleteLookupError + id)
    else if forall k :: k in before ==> !Matches(ById(team, user, id), before[k]) then
      after == before && body == WithText(CommandBody, DeleteNotFound + id)
    else
      exists k :: k in before && Matches(ById(team, user, id), before[k])
                  && after == (if writeOk then before - {k} else before)
                  && body == WithText(CommandBody, (if writeOk then DeleteDone
                                                    else DeleteFailed) + id)
  }

  /** `delete_message_helper(team_id, user_id, id_to_delete, body, callback)`. */
  method DeleteMessage(t: MessageTable, team: string, user: string, id: string, readOk: bool, writeOk: bool)
    returns (body: Body)
    requires t.Valid()
    modifies t
    ensures t.Valid()
    ensures DeleteEffect(team, user, id, readOk, writeOk, old(t.rows), t.rows, body)
  {
    var items := t.Query(ById(team, user, id), readOk);
    if items.None? {
      return WithText(CommandBody, DeleteLookupError + id);
    }
    if |items.value| == 0 {
      assert forall k :: k in t.rows ==> t.rows[k] in t.rows.Values;
      return WithText(CommandBody, DeleteNotFound + id);
    }
    var item := items.value[0];
    assert item in items.value;
    ghost var k := KeyOf(item);
    assert k in t.rows && t.rows[k] == item;
    var ok := t.Delete(Key(item.ymd, item.dateId), writeOk);
    if ok {
      body := WithText(CommandBody, DeleteDone + id);
    } else {
      body := WithText(CommandBody, DeleteFailed + id);
    }
  }

  /** Deleting never touches a row of another owner or with another id. */
  lemma DeleteIsOwnerScoped(team: string, user: string, id: string, readOk: bool, writeOk: bool,
                            before: map<Key, Row>, after: map<Key, Row>, body: Body, k: Key)
    requires DeleteEffect(team, user, id, readOk, writeOk, before, after, body)
    requires k in before && !Matches(ById(team, user, id), before[k])
    ensures k in after && after[k] == before[k]
  {
  }

  // ---------------------------------------------------------------------------
  // The slash command

  /** `slack_command(event, context, callback)`; `None` means the handler never calls back. */
  method SlackCommand(t: MessageTable, cfg: Config, payload: Option<Payload>, ext: Externals)
    returns (response: Option<Body>)
    requires t.Valid()
    modifies t
    ensures t.Valid()
    ensures payload.None? ==> response == Some(Body(Some(Ephemeral), None, None)) && t.rows == old(t.rows)
    ensures payload.Some? ==>
      match RouteOf(payload.value)
      case List(inChannel) =>
        t.rows == old(t.rows) && response.Some?
        && ListEffect(cfg, payload.value.teamId, payload.value.userId,
                      if inChannel then InChannel else Ephemeral, ext.readOk, t.rows, response.value)
      case MissingId => t.rows == old(t.rows) && response == Some(WithText(CommandBody, MsgErrMissingId))
      case Delete(id) =>
        response.Some?
        && DeleteEffect(payload.value.teamId, payload.value.userId, id, ext.readOk, ext.writeOk,
                        old(t.rows), t.rows, response.value)
      case Help => t.rows == old(t.rows) && response == Some(WithText(CommandBody, MsgErrMissingText))
      case Schedule(text) =>
        response.Some? && ScheduleEffect(cfg, payload.value, text, ext, old(t.rows), t.rows, response.value)
      case Ignore => t.rows == old(t.rows) && response.None?
  {
    if payload.None? {
      return Some(Body(Some(Ephemeral), None, None));
    }
    var p := payload.value;
    match RouteOf(p) {
      case List(inChannel) =>
        var body := ListMessages(t, cfg, p.teamId, p.userId, if inChannel then InChannel else Ephemeral, ext.readOk);
        response := Some(body);
      case MissingId =>
        response := Some(WithText(CommandBody, MsgErrMissingId));
      case Delete(id) =>
        var body := DeleteMessage(t, p.teamId, p.userId, id, ext.readOk, ext.writeOk);
        response := Some(body);
      case Help =>
        response := Some(WithText(CommandBody, MsgErrMissingText));
      case Schedule(text) =>
        var body := SendMessage(t, cfg, p, text, ext);
        response := Some(body);
      case Ignore =>
        response := None;
    }
  }
}
