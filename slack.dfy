/**
 * The shapes the handler exchanges with the chat platform: the slash-command
 * payload, the response body with its attachments, the configured app
 * token and install URL, and the fixed reply texts.
 */
module Slack {

  import opened Wrappers
  import opened Clock

  /** `slack.json`: the verification token and the install URL quoted in one reply. */
  datatype Config = Config(appToken: string, installUrl: string)

  /**
   * A slash-command payload. `cleanText` is the attribute the schedule path
   * adds before the payload is stored; other attributes ride along verbatim
   * and are not modelled.
   */
  datatype Payload = Payload(token: string, teamId: string, userId: string,
                             channelId: string, channelName: string, command: string,
                             text: Option<string>, cleanText: Option<string>)

  /** `validate_payload`: the payload carries the app's verification token. */
  predicate ValidatePayload(cfg: Config, p: Payload)
  {
    p.token == cfg.appToken
  }

  datatype ResponseType = Ephemeral | InChannel

  /** An attachment title: a date as the handler formats it for display, or an unparseable date. */
  datatype DateLabel = Formatted(when: Instant) | InvalidDate

  /**
   * A message attachment. `deleteButton` is the confirm-guarded Delete
   * button whose texts are fixed up to the message id.
   */
  datatype Attachment = Attachment(authorName: string, title: Option<DateLabel>,
                                   text: Option<string>, footer: Option<string>,
                                   callbackId: Option<string>, deleteButton: bool)

  /** A JSON response body; a missing field is a field the handler never set. */
  datatype Body = Body(responseType: Option<ResponseType>, text: Option<string>,
                       attachments: Option<seq<Attachment>>)

  /** The body `slack_command` starts from once it has a payload. */
  const CommandBody := Body(Some(Ephemeral), None, Some([]))

  function WithText(b: Body, text: string): Body
  {
    b.(text := Some(text))
  }

  function ChannelAuthor(p: Payload): string
  {
    "Channel: " + p.channelName
  }

  const MsgErr := "Oops, We hit an expected error. Please try again."
  const MsgErrValidation := "The message token could not be validated."
  const MsgErrMissingText := "Hmm... Did you forget to type a message?\n\nYou could also try:\n\n- */slist [inline]* or */send list [inline]*\nList unsent messages.\n_inline_ prints in the channel for everyone to see.\n\n- */sdelete ID* or */send delete ID*\nDelete a message"
  const MsgErrMissingId := "Hmm... I don't think you sent an ID."
  const MsgErrNoMessage := "Oops, We found a date but no message: "
  const MsgErrNoDate := "Hmm... I couldn't find a date in your message: "
  const MsgAck := "Got it. Scheduled the message: "

  const MsgMissingTokenLead := "You might need to authorize the app to post messages on your behalf. Please visit "

  function MsgErrMissingToken(cfg: Config): string
  {
    MsgMissingTokenLead + cfg.installUrl
  }
}
