/** The `/register_ra` command: a registered user adds an RA job, which the
    user then names in reports. Current refuses a name the user already has;
    Legacy does not look. */
module RegisterRa {
  import opened Text
  import opened Model
  import opened Request
  import opened Queries

  /** How the command ends. `UserAmbiguous` and `RaAmbiguous` are
      `scalar_one_or_none` raising on two rows. `RaFailed` is a failed write:
      rolled back and re-raised, with an error reply in Current only. */
  datatype RegisterOutcome =
    | ContextMissing
    | Usage
    | SymbolsRejected
    | NotRegistered
    | UserAmbiguous
    | AlreadyHasRa
    | RaAmbiguous
    | RaRegistered(ra: Ra)
    | RaFailed(err: DbError, replied: bool)
  {
    predicate Raises()
    {
      ContextMissing? || UserAmbiguous? || RaAmbiguous? || RaFailed?
    }
  }

  /** No user has two RA jobs of the same name. The schema does not declare
      this; Current keeps it by looking before inserting. */
  predicate RaNamesUnique(ras: seq<Ra>)
  {
    forall i, j :: 0 <= i < j < |ras| && ras[i].userId == ras[j].userId ==> ras[i].raName != ras[j].raName
  }

  /** `register_RA` in both versions on the command text. */
  function RegisterRa(v: Variant, db: Db, ctx: Ctx, text: string, fault: Option<DbError>): (r: (RegisterOutcome, Db))
    ensures !r.0.RaRegistered? ==> r.1 == db
    ensures r.0.Raises() ==> r.1 == db
    ensures !ContextAvailable(ctx) <==> r.0 == ContextMissing
    ensures r.0 == Usage <==> ContextAvailable(ctx) && Strip(text) == []
    ensures r.0 == SymbolsRejected <==> ContextAvailable(ctx) && v == Current && Enclosed(Strip(text))
    ensures r.0 == NotRegistered <==> ContextAvailable(ctx) && Strip(text) != [] && !(v == Current && Enclosed(Strip(text)))
                                      && UserBySlackId(db.users, ctx.actorUserId).NoRow?
    ensures r.0 == AlreadyHasRa ==> v == Current && |RasNamed(db, ctx.actorUserId, Strip(text), 0)| == 1
    ensures r.0.RaAmbiguous? ==> v == Current
    ensures r.0.RaFailed? ==> r.0.replied == (v == Current)
  {
    var raName := Strip(text);
    if !ContextAvailable(ctx) then (ContextMissing, db)
    else if raName == [] then (Usage, db)
    else if v == Current && Enclosed(raName) then (SymbolsRejected, db)
    else
      match UserBySlackId(db.users, ctx.actorUserId)
      case NoRow => (NotRegistered, db)
      case ManyRows => (UserAmbiguous, db)
      case OneRow(u) =>
        var same := RasNamed(db, ctx.actorUserId, raName, 0);
        if v == Current && |same| == 1 then (AlreadyHasRa, db)
        else if v == Current && |same| > 1 then (RaAmbiguous, db)
        else Settle(v, db, Ra(db.nextRaId, db.users[u].id, raName),
                    Transact(db, NewRa(db, db.users[u].id, raName), fault))
  }

  /** The command once the session that added ra ended as t. */
  function Settle(v: Variant, db: Db, ra: Ra, t: Txn): (r: (RegisterOutcome, Db))
    requires t.err.Some? ==> t.db == db
    ensures r.1 == t.db
    ensures r.0.RaRegistered? <==> t.err.None?
    ensures r.0.RaRegistered? ==> r.0.ra == ra
    ensures r.0.RaFailed? <==> t.err.Some?
    ensures r.0.RaFailed? ==> r.1 == db
    ensures r.0.RaFailed? ==> r.0.err == t.err.value && r.0.replied == (v == Current)
  {
    match t.err
    case None => (RaRegistered(ra), t.db)
    case Some(e) => (RaFailed(e, v == Current), db)
  }

  /** A registration commits exactly one new RA job: the stripped name, owned
      by the actor's user, with an id drawn from the sequence. */
  lemma {:induction false} RegisterAddsRa(v: Variant, db: Db, ctx: Ctx, text: string, fault: Option<DbError>)
    requires RegisterRa(v, db, ctx, text, fault).0.RaRegistered?
    ensures var r := RegisterRa(v, db, ctx, text, fault);
      && r.1.ras == db.ras + [r.0.ra] && r.1.users == db.users && r.1.cards == db.cards
      && r.0.ra.id == db.nextRaId && r.0.ra.raName == Strip(text)
      && exists u :: 0 <= u < |db.users| && db.users[u].slackUserId == ctx.actorUserId && db.users[u].id == r.0.ra.userId
  {
    var u := UserBySlackId(db.users, ctx.actorUserId).row;
    assert db.users[u].slackUserId == ctx.actorUserId;
  }

  /** On a valid database with no fault, a registered user with no RA job of
      that name always gets it. */
  lemma {:induction false} RegisterSucceeds(v: Variant, db: Db, ctx: Ctx, text: string)
    requires ValidDb(db) && ContextAvailable(ctx) && Strip(text) != [] && !(v == Current && Enclosed(Strip(text)))
    requires UserBySlackId(db.users, ctx.actorUserId).OneRow?
    requires RasNamed(db, ctx.actorUserId, Strip(text), 0) == []
    ensures RegisterRa(v, db, ctx, text, None).0.RaRegistered?
  {
    var u := UserBySlackId(db.users, ctx.actorUserId).row;
    NewRaConstraints(db, db.users[u].id, Strip(text));
  }

  /** An RA job owned by the actor's user is found by the join on the actor's
      Slack id. */
  lemma {:induction false} OwnedByUser(db: Db, k: nat, u: nat, slackUserId: string)
    requires k < |db.ras| && u < |db.users|
    requires db.users[u].slackUserId == slackUserId && db.ras[k].userId == db.users[u].id
    ensures OwnedBy(db, k, slackUserId)
  {
  }

  /** Current keeps RA names unique per user. */
  lemma {:induction false} CurrentKeepsNamesUnique(db: Db, ctx: Ctx, text: string, fault: Option<DbError>)
    requires ValidDb(db) && RaNamesUnique(db.ras)
    ensures RaNamesUnique(RegisterRa(Current, db, ctx, text, fault).1.ras)
  {
    var r := RegisterRa(Current, db, ctx, text, fault);
    if r.0.RaRegistered? {
      var u := UserBySlackId(db.users, ctx.actorUserId).row;
      var n := |db.ras|;
      assert r.1.ras == db.ras + [r.0.ra];
      forall i, j | 0 <= i < j < |r.1.ras| && r.1.ras[i].userId == r.1.ras[j].userId
        ensures r.1.ras[i].raName != r.1.ras[j].raName
      {
        assert r.1.ras[i] == db.ras[i];
        if j == n {
          OwnedByUser(db, i, u, ctx.actorUserId);
          assert RasNamed(db, ctx.actorUserId, Strip(text), 0) == [];
        } else {
          assert r.1.ras[j] == db.ras[j];
        }
      }
    }
  }

  /** Legacy registers a name the user already has: the same command run
      twice gives the user two RA jobs of that name. */
  lemma {:induction false} LegacyDuplicatesName(db: Db, ctx: Ctx, text: string)
    requires ValidDb(db) && RegisterRa(Legacy, db, ctx, text, None).0.RaRegistered?
    ensures var db1 := RegisterRa(Legacy, db, ctx, text, None).1;
      var db2 := RegisterRa(Legacy, db1, ctx, text, None).1;
      RegisterRa(Legacy, db1, ctx, text, None).0.RaRegistered? && !RaNamesUnique(db2.ras)
  {
    var first := RegisterRa(Legacy, db, ctx, text, None);
    var db1 := first.1;
    RegisterAddsRa(Legacy, db, ctx, text, None);
    NewRaConstraints(db, first.0.ra.userId, Strip(text));
    TransactKeepsValid(db, NewRa(db, first.0.ra.userId, Strip(text)), None);
    assert UserBySlackId(db1.users, ctx.actorUserId) == UserBySlackId(db.users, ctx.actorUserId);
    var u := UserBySlackId(db.users, ctx.actorUserId).row;
    NewRaConstraints(db1, db1.users[u].id, Strip(text));
    var second := RegisterRa(Legacy, db1, ctx, text, None);
    RegisterAddsRa(Legacy, db1, ctx, text, None);
    var db2 := second.1;
    var n := |db.ras|;
    assert db2.ras[n] == first.0.ra && db2.ras[n + 1] == second.0.ra;
  }

  /** After Current registers an RA job, a report naming it resolves to it. */
  lemma {:induction false} RegisterThenFind(db: Db, ctx: Ctx, text: string, fault: Option<DbError>)
    requires ValidDb(db) && RegisterRa(Current, db, ctx, text, fault).0.RaRegistered?
    ensures var r := RegisterRa(Current, db, ctx, text, fault);
      FindRa(r.1, ctx.actorUserId, Strip(text)) == Some(r.0.ra.id)
  {
    var r := RegisterRa(Current, db, ctx, text, fault);
    var u := UserBySlackId(db.users, ctx.actorUserId).row;
    var n := |db.ras|;
    RegisterAddsRa(Current, db, ctx, text, fault);
    assert RasNamed(db, ctx.actorUserId, Strip(text), 0) == [];
    forall k | 0 <= k < n && r.1.ras[k].raName == Strip(text)
      ensures !OwnedBy(r.1, k, ctx.actorUserId)
    {
      assert r.1.ras[k] == db.ras[k];
      assert OwnedBy(r.1, k, ctx.actorUserId) == OwnedBy(db, k, ctx.actorUserId);
    }
    OwnedByUser(r.1, n, u, ctx.actorUserId);
    RasNamedOnly(r.1, ctx.actorUserId, Strip(text), n);
  }

  /** When only the last RA row matches, the join returns just that row. */
  lemma {:induction false} RasNamedOnly(db: Db, slackUserId: string, raName: string, n: nat)
    requires n < |db.ras| && n == |db.ras| - 1
    requires db.ras[n].raName == raName && OwnedBy(db, n, slackUserId)
    requires forall k :: 0 <= k < n && db.ras[k].raName == raName ==> !OwnedBy(db, k, slackUserId)
    ensures RasNamed(db, slackUserId, raName, 0) == [n]
  {
    var ix := RasNamed(db, slackUserId, raName, 0);
    assert n in ix;
    assert forall k :: 0 <= k < |ix| ==> ix[k] == n;
    assert ix[0] == n && ix[|ix| - 1] == n;
    assert |ix| == 1;
  }

  /** Every outcome leaves a valid database. */
  lemma {:induction false} RegisterKeepsValid(v: Variant, db: Db, ctx: Ctx, text: string, fault: Option<DbError>)
    requires ValidDb(db)
    ensures ValidDb(RegisterRa(v, db, ctx, text, fault).1)
  {
    var r := RegisterRa(v, db, ctx, text, fault);
    if r.0.RaRegistered? {
      var u := UserBySlackId(db.users, ctx.actorUserId).row;
      var candidate := NewRa(db, db.users[u].id, Strip(text));
      assert r.1 == Transact(db, candidate, fault).db;
      NewRaConstraints(db, db.users[u].id, Strip(text));
      TransactKeepsValid(db, candidate, fault);
    }
  }

  /** The command on the store. */
  method HandleRegisterRa(v: Variant, store: Store, ctx: Ctx, text: string, fault: Option<DbError>) returns (out: RegisterOutcome)
    modifies store
    ensures (out, store.State()) == RegisterRa(v, old(store.State()), ctx, text, fault)
    ensures old(store.Valid()) ==> store.Valid()
    ensures store.cards == old(store.cards)
  {
    var raName := Strip(text);
    if !ContextAvailable(ctx) {
      out := ContextMissing;
    } else if raName == [] {
      out := Usage;
    } else if v == Current && Enclosed(raName) {
      out := SymbolsRejected;
    } else {
      var found := UserBySlackId(store.users, ctx.actorUserId);
      match found {
        case NoRow => out := NotRegistered;
        case ManyRows => out := UserAmbiguous;
        case OneRow(u) =>
          var same := RasNamed(store.State(), ctx.actorUserId, raName, 0);
          if v == Current && |same| == 1 {
            out := AlreadyHasRa;
          } else if v == Current && |same| > 1 {
            out := RaAmbiguous;
          } else {
            var ra := Ra(store.nextRaId, store.users[u].id, raName);
            var err := store.AddRa(store.users[u].id, raName, fault);
            out := if err.None? then RaRegistered(ra) else RaFailed(err.value, v == Current);
          }
      }
    }
    if old(store.Valid()) {
      RegisterKeepsValid(v, old(store.State()), ctx, text, fault);
    }
  }
}
