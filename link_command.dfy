/**
 * The `/loggin` slash command (bot/commands/loggin.py): check the credentials with a fresh
 * SS14Login, link the ckey on success, and answer with one localisation key.
 */
module LinkCommand {
  import opened Wrappers
  import opened IdentityStore
  import opened SS14Auth

  /** A key of the localisation table, `lang.loc(section, key)`. */
  datatype ReplyKey = ReplyKey(section: string, key: string)

  const CORRECT := ReplyKey("loggin", "correct")
  const ERROR := ReplyKey("loggin", "error")

  /** The command answers with one reply, or the exception from `login` escapes it. */
  datatype CommandOutcome = Replied(reply: ReplyKey) | Raised(error: LoginError)

  /** The outcome for a login result. */
  function OutcomeOf(result: Result<bool, LoginError>): (o: CommandOutcome)
    ensures o.Raised? <==> result.Err?
    ensures o == Replied(CORRECT) <==> result == Ok(true)
    ensures o == Replied(ERROR) <==> result == Ok(false)
  {
    match result
    case Err(e) => Raised(e)
    case Ok(verified) => Replied(if verified then CORRECT else ERROR)
  }

  /**
   * `loggin(ctx, login, password)` for the caller `author`. The verifier is a fresh object,
   * so its outcome is that of a login with no cached token; on success the raw `login` text
   * becomes the caller's ckey and the stored role level is kept.
   */
  method Loggin(db: DBManager, author: DiscordId, login: string, password: string,
                page: PageResponse, reply: SubmitResponse)
    returns (outcome: CommandOutcome, ghost requests: seq<Request>)
    requires db.Valid()
    modifies db
    ensures db.Valid()
    ensures var a := LoginSpec(None, login, password, page, reply);
      outcome == OutcomeOf(a.result) && requests == a.issued
    ensures outcome == Replied(CORRECT) ==> db.Contents() == Upsert(old(db.Contents()), Write(author, Some(login), None))
    ensures outcome != Replied(CORRECT) ==> db.rows == old(db.rows)
    ensures db.writes == old(db.writes) + if outcome == Replied(CORRECT) then [Write(author, Some(login), None)] else []
  {
    var verifier := new SS14Login();
    var result := verifier.Login(login, password, page, reply);
    requests := verifier.requests;
    if result.Err? {
      return Raised(result.error), requests;
    }
    if result.value {
      db.AddOrUpdateMember(author, Some(login), None);
      outcome := Replied(CORRECT);
    } else {
      outcome := Replied(ERROR);
    }
  }

  /**
   * A successful link stores the login text as the caller's ckey, keeps the caller's role
   * level (NULL for a new row), and touches no other row.
   */
  lemma LinkEffect(t: map<DiscordId, Entry>, author: DiscordId, login: string)
    ensures var t' := Upsert(t, Write(author, Some(login), None));
      && author in t'
      && t'[author] == Entry(Some(login), Base(t, author).roleLevel)
      && (forall id :: id != author ==> (id in t' <==> id in t) && (id in t ==> t'[id] == t[id]))
  {
  }

  /** Verified credentials give the success reply and a link; an endpoint that stays on the login page gives the error reply. */
  lemma CommandDecision(login: string, password: string, page: PageResponse, reply: SubmitResponse)
    requires page.status == 200 && page.tokenInput.Some? && reply.status == 200
    ensures var o := OutcomeOf(LoginSpec(None, login, password, page, reply).result);
      (o == Replied(CORRECT) <==> reply.url != LOGIN_URL) && (o == Replied(ERROR) <==> reply.url == LOGIN_URL)
  {
    LoginResultSpec(None, login, password, page, reply);
  }
}
