/** The `/init` command: a Slack user registers as a bot user under the
    name given as the argument. The Slack id is unique in the user table, so
    a second registration is refused by the database. After the commit the
    App Home view is read from a file; `viewFileExists` says whether it is
    there. */
module Init {
  import opened Text
  import opened Model
  import opened Request
  import opened Queries

  /** How the command ends. `FailedReplied` is an integrity error other than
      the unique violation that Current answers with a reply; `FailedRaised`
      is any error that propagates (Legacy re-raises those integrity errors,
      and neither version catches an operational error). `ViewMissing` is the
      FileNotFoundError raised after the commit: the user stays registered. */
  datatype InitOutcome =
    | ContextMissing
    | Usage
    | SymbolsRejected
    | Registered(user: User)
    | AlreadyRegistered
    | FailedReplied(err: DbError)
    | FailedRaised(err: DbError)
    | ViewMissing(user: User)
  {
    predicate Raises()
    {
      ContextMissing? || FailedRaised? || ViewMissing?
    }

    predicate Committed()
    {
      Registered? || ViewMissing?
    }
  }

  /** `init` (Current) and `register_user` (Legacy) on the command text. */
  function Init(v: Variant, db: Db, ctx: Ctx, text: string, viewFileExists: bool, fault: Option<DbError>): (r: (InitOutcome, Db))
    ensures !r.0.Committed() ==> r.1 == db
    ensures r.0.Raises() ==> (r.1 == db <==> !r.0.ViewMissing?)
    ensures r.0.Committed() ==> r.1 == NewUser(db, ctx.actorUserId, Strip(text))
    ensures r.0.Committed() ==> r.0.user == User(db.nextUserId, ctx.actorUserId, Strip(text))
    ensures !ContextAvailable(ctx) <==> r.0 == ContextMissing
    ensures r.0 == Usage <==> ContextAvailable(ctx) && Strip(text) == []
    ensures r.0 == SymbolsRejected <==> ContextAvailable(ctx) && v == Current && Enclosed(Strip(text))
    ensures r.0.Registered? ==> viewFileExists
    ensures r.0.ViewMissing? <==> r.0.Committed() && !viewFileExists
  {
    var name := Strip(text);
    if !ContextAvailable(ctx) then (ContextMissing, db)
    else if name == [] then (Usage, db)
    else if v == Current && Enclosed(name) then (SymbolsRejected, db)
    else Attempt(v, db, ctx.actorUserId, name, viewFileExists, fault)
  }

  /** `sess.add(User(...))` and the commit, for a name that passed the checks. */
  function Attempt(v: Variant, db: Db, slackUserId: string, name: string, viewFileExists: bool, fault: Option<DbError>): (r: (InitOutcome, Db))
    ensures r.0 != ContextMissing && r.0 != Usage && r.0 != SymbolsRejected
    ensures r.1 == if r.0.Committed() then NewUser(db, slackUserId, name) else db
    ensures r.0.Committed() ==> r.0.user == User(db.nextUserId, slackUserId, name) && (r.0.Registered? <==> viewFileExists)
  {
    Settle(v, db, User(db.nextUserId, slackUserId, name), viewFileExists,
           Transact(db, NewUser(db, slackUserId, name), fault))
  }

  /** The command once the session that added user ended as t: read the
      view file after a commit, or sort the error raised by the flush. */
  function Settle(v: Variant, db: Db, user: User, viewFileExists: bool, t: Txn): (r: (InitOutcome, Db))
    requires t.err.Some? ==> t.db == db
    ensures r.0 != ContextMissing && r.0 != Usage && r.0 != SymbolsRejected
    ensures r.1 == t.db
    ensures r.0.Committed() <==> t.err.None?
    ensures r.0.Committed() ==> r.0.user == user && (r.0.Registered? <==> viewFileExists)
    ensures r.0 == AlreadyRegistered <==> t.err == Some(UniqueViolation)
    ensures r.0.FailedReplied? <==> t.err.Some? && t.err != Some(UniqueViolation) && t.err.value.IsIntegrityError() && v == Current
    ensures r.0.FailedReplied? || r.0.FailedRaised? ==> t.err == Some(r.0.err)
  {
    match t.err
    case None => if viewFileExists then (Registered(user), t.db) else (ViewMissing(user), t.db)
    case Some(e) =>
      if e == UniqueViolation then (AlreadyRegistered, db)
      else if e.IsIntegrityError() && v == Current then (FailedReplied(e), db)
      else (FailedRaised(e), db)
  }

  /** A name the command accepts: non-empty after stripping and, for Current,
      not enclosed in symbols. */
  predicate Acceptable(v: Variant, text: string)
  {
    Strip(text) != [] && !(v == Current && Enclosed(Strip(text)))
  }

  /** On a valid database with no fault, an acceptable name is refused as
      already registered exactly when a user with the actor's Slack id
      exists; otherwise the user is committed. */
  lemma {:induction false} InitRegistersUnlessKnown(v: Variant, db: Db, ctx: Ctx, text: string, viewFileExists: bool)
    requires ValidDb(db) && ContextAvailable(ctx) && Acceptable(v, text)
    ensures var r := Init(v, db, ctx, text, viewFileExists, None);
      && (r.0 == AlreadyRegistered <==> UserBySlackId(db.users, ctx.actorUserId).OneRow?)
      && (r.0.Committed() <==> UserBySlackId(db.users, ctx.actorUserId).NoRow?)
  {
    NewUserConstraints(db, ctx.actorUserId, Strip(text));
    UserBySlackIdUnique(db, ctx.actorUserId);
  }

  /** After a registration the actor's Slack id finds exactly the new user. */
  lemma {:induction false} InitThenLookup(v: Variant, db: Db, ctx: Ctx, text: string, viewFileExists: bool, fault: Option<DbError>)
    requires Init(v, db, ctx, text, viewFileExists, fault).0.Committed()
    ensures var r := Init(v, db, ctx, text, viewFileExists, fault);
      UserBySlackId(r.1.users, ctx.actorUserId) == OneRow(|db.users|) && r.1.users[|db.users|] == r.0.user
  {
    var r := Init(v, db, ctx, text, viewFileExists, fault);
    var n := |db.users|;
    assert KeysUnique(r.1);
    assert r.1.users[n].slackUserId == ctx.actorUserId;
    assert forall k :: 0 <= k < n ==> r.1.users[k].slackUserId != r.1.users[n].slackUserId;
  }

  /** Running the command twice: the second run is refused as already
      registered and changes nothing. */
  lemma {:induction false} InitTwice(v: Variant, db: Db, ctx: Ctx, text: string, viewFileExists: bool, text2: string)
    requires ValidDb(db) && Acceptable(v, text2)
    requires Init(v, db, ctx, text, viewFileExists, None).0.Committed()
    ensures var db1 := Init(v, db, ctx, text, viewFileExists, None).1;
      Init(v, db1, ctx, text2, viewFileExists, None) == (AlreadyRegistered, db1)
  {
    var db1 := Init(v, db, ctx, text, viewFileExists, None).1;
    NewUserConstraints(db, ctx.actorUserId, Strip(text));
    InitThenLookup(v, db, ctx, text, viewFileExists, None);
    InitRegistersUnlessKnown(v, db1, ctx, text2, viewFileExists);
  }

  /** Every outcome leaves a valid database. */
  lemma {:induction false} InitKeepsValid(v: Variant, db: Db, ctx: Ctx, text: string, viewFileExists: bool, fault: Option<DbError>)
    requires ValidDb(db)
    ensures ValidDb(Init(v, db, ctx, text, viewFileExists, fault).1)
  {
    NewUserConstraints(db, ctx.actorUserId, Strip(text));
    TransactKeepsValid(db, NewUser(db, ctx.actorUserId, Strip(text)), fault);
  }

  /** The two versions differ on an integrity error other than the unique
      violation: Current replies and returns, Legacy re-raises. An
      operational error propagates from both. */
  lemma {:induction false} InitOtherErrors(db: Db, ctx: Ctx, text: string, viewFileExists: bool, e: DbError)
    requires ContextAvailable(ctx) && Acceptable(Current, text) && e != UniqueViolation
    ensures e.IsIntegrityError() ==> Init(Current, db, ctx, text, viewFileExists, Some(e)).0 == FailedReplied(e)
    ensures Init(Legacy, db, ctx, text, viewFileExists, Some(e)).0 == FailedRaised(e)
    ensures !e.IsIntegrityError() ==> Init(Current, db, ctx, text, viewFileExists, Some(e)).0 == FailedRaised(e)
  {
  }

  /** Current refuses a name enclosed in symbols (such as `*Taro*`) that
      Legacy registers. */
  lemma {:induction false} EnclosedNameVariants(db: Db, ctx: Ctx, text: string, viewFileExists: bool)
    requires ValidDb(db) && ContextAvailable(ctx) && UserBySlackId(db.users, ctx.actorUserId).NoRow?
    requires Enclosed(Strip(text))
    ensures Init(Current, db, ctx, text, viewFileExists, None).0 == SymbolsRejected
    ensures Init(Legacy, db, ctx, text, viewFileExists, None).0.Committed()
  {
    InitRegistersUnlessKnown(Legacy, db, ctx, text, viewFileExists);
  }

  /** The command on the store. */
  method HandleInit(v: Variant, store: Store, ctx: Ctx, text: string, viewFileExists: bool, fault: Option<DbError>) returns (out: InitOutcome)
    modifies store
    ensures (out, store.State()) == Init(v, old(store.State()), ctx, text, viewFileExists, fault)
    ensures old(store.Valid()) ==> store.Valid()
    ensures store.cards == old(store.cards)
  {
    var name := Strip(text);
    if !ContextAvailable(ctx) {
      out := ContextMissing;
    } else if name == [] {
      out := Usage;
    } else if v == Current && Enclosed(name) {
      out := SymbolsRejected;
    } else {
      var user := User(store.nextUserId, ctx.actorUserId, name);
      var err := store.AddUser(ctx.actorUserId, name, fault);
      match err {
        case None =>
          out := if viewFileExists then Registered(user) else ViewMissing(user);
        case Some(e) =>
          if e == UniqueViolation {
            out := AlreadyRegistered;
          } else if e.IsIntegrityError() && v == Current {
            out := FailedReplied(e);
          } else {
            out := FailedRaised(e);
          }
      }
    }
    if old(store.Valid()) {
      InitKeepsValid(v, old(store.State()), ctx, text, viewFileExists, fault);
    }
  }
}
