/** What every handler receives from Slack besides its payload, and the two
    versions of the handlers the repository carries: the monolithic `app.py`
    (Legacy) and the split listener package under `app/listeners` (Current). */
module Request {

  datatype Variant = Legacy | Current

  /** The fields of the Bolt context the handlers read; a missing value is
      the empty string. */
  datatype Ctx = Ctx(channelId: string, actorUserId: string)

  /** `context.channel_id and context.actor_user_id`: when this fails every
      handler raises a ValueError before doing anything else. */
  predicate ContextAvailable(ctx: Ctx)
  {
    ctx.channelId != [] && ctx.actorUserId != []
  }

  /** The symbols a user name or an RA name may not start or end with. */
  predicate RedundantChar(c: char)
  {
    c == '<' || c == '>' || c == '*'
  }

  /** A non-empty name that starts or ends with one of `<`, `>`, `*`. */
  predicate Enclosed(s: string)
  {
    s != [] && (RedundantChar(s[0]) || RedundantChar(s[|s| - 1]))
  }
}
