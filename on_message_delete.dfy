/** The `message` event handler for deleted messages: when a user deletes a
    report, the timecard created from it is deleted too. Both versions of
    the handler behave the same, so there is no variant parameter. */
module OnMessageDelete {
  import opened Text
  import opened Calendar
  import opened Model
  import opened Request
  import OnMention

  /** How the handler ends. `Ambiguous` is `scalar_one_or_none` raising on
      two cards for the ts inside the try: rollback, error reply, re-raise. */
  datatype DeleteOutcome =
    | ContextMissing
    | Ignored
    | NoCard
    | Ambiguous
    | Deleted(card: TimeCard)
    | DeleteFailed(err: DbError)
  {
    predicate Raises()
    {
      ContextMissing? || Ambiguous? || DeleteFailed?
    }
  }

  /** `on_message_delete` (Current) and `delete_record` (Legacy): deletedTs is
      the event's `deleted_ts` field, None when the event has none. */
  function OnMessageDelete(db: Db, ctx: Ctx, deletedTs: Option<string>, fault: Option<DbError>): (r: (DeleteOutcome, Db))
    ensures !r.0.Deleted? ==> r.1 == db
    ensures r.0.Raises() ==> r.1 == db
    ensures !ContextAvailable(ctx) ==> r.0 == ContextMissing
    ensures ContextAvailable(ctx) && deletedTs.None? ==> r.0 == Ignored
    ensures r.0 == NoCard <==>
      ContextAvailable(ctx) && deletedTs.Some?
      && forall i :: 0 <= i < |db.cards| ==> db.cards[i].slackMessageTs != deletedTs.value
    ensures r.0 == Ambiguous <==> ContextAvailable(ctx) && deletedTs.Some? && FindCardByTs(db.cards, deletedTs.value).ManyRows?
  {
    if !ContextAvailable(ctx) then (ContextMissing, db)
    else if deletedTs.None? then (Ignored, db)
    else
      match FindCardByTs(db.cards, deletedTs.value)
      case NoRow => (NoCard, db)
      case ManyRows => (Ambiguous, db)
      case OneRow(i) =>
        var t := Transact(db, RemoveCard(db, i), fault);
        if t.err.None? then (Deleted(db.cards[i]), t.db) else (DeleteFailed(t.err.value), t.db)
  }

  /** A deletion removes exactly the card of the deleted message, keeps the
      order of the others, and touches no user and no RA job. */
  lemma {:induction false} DeleteRemovesOnlyThatCard(db: Db, ctx: Ctx, ts: string, fault: Option<DbError>)
    requires OnMessageDelete(db, ctx, Some(ts), fault).0.Deleted?
    ensures var r := OnMessageDelete(db, ctx, Some(ts), fault);
      exists i :: 0 <= i < |db.cards|
        && db.cards[i] == r.0.card && r.0.card.slackMessageTs == ts
        && r.1.cards == db.cards[..i] + db.cards[i + 1..]
        && (forall k :: 0 <= k < |r.1.cards| ==> r.1.cards[k].slackMessageTs != ts)
        && r.1.users == db.users && r.1.ras == db.ras
  {
    var i := FindCardByTs(db.cards, ts).row;
    var rest := db.cards[..i] + db.cards[i + 1..];
    assert forall k :: 0 <= k < |rest| ==> rest[k] == db.cards[if k < i then k else k + 1];
  }

  /** The deleted card's multiset of cards loses exactly that card. */
  lemma {:induction false} DeleteIsMultisetRemoval(db: Db, ctx: Ctx, ts: string, fault: Option<DbError>)
    requires OnMessageDelete(db, ctx, Some(ts), fault).0.Deleted?
    ensures var r := OnMessageDelete(db, ctx, Some(ts), fault);
      multiset(r.1.cards) + multiset{r.0.card} == multiset(db.cards)
  {
    var i := FindCardByTs(db.cards, ts).row;
    var r := OnMessageDelete(db, ctx, Some(ts), fault);
    assert r.1.cards == db.cards[..i] + db.cards[i + 1..] && r.0.card == db.cards[i];
    RemoveAtMultiset(db.cards, i);
  }

  lemma {:induction false} RemoveAtMultiset(s: seq<TimeCard>, i: nat)
    requires i < |s|
    ensures multiset(s[..i] + s[i + 1..]) + multiset{s[i]} == multiset(s)
  {
    assert s == s[..i] + [s[i]] + s[i + 1..];
  }

  /** On a valid database a card found by ts is always deleted unless the
      environment makes the commit fail: removing a timecard breaks no
      constraint. */
  lemma {:induction false} DeleteSucceeds(db: Db, ctx: Ctx, ts: string)
    requires ValidDb(db) && ContextAvailable(ctx) && FindCardByTs(db.cards, ts).OneRow?
    ensures OnMessageDelete(db, ctx, Some(ts), None).0.Deleted?
  {
    RemoveCardConstraints(db, FindCardByTs(db.cards, ts).row);
  }

  /** On a valid database with one card per message, and a commit that does
      not fail, the handler raises only when the context is missing. */
  lemma {:induction false} DeleteRaisesOnly(db: Db, ctx: Ctx, deletedTs: Option<string>)
    requires ValidDb(db) && TsUnique(db.cards)
    ensures OnMessageDelete(db, ctx, deletedTs, None).0.Raises() <==> !ContextAvailable(ctx)
  {
    if ContextAvailable(ctx) && deletedTs.Some? {
      FindCardByTsUnique(db.cards, deletedTs.value);
      if FindCardByTs(db.cards, deletedTs.value).OneRow? {
        DeleteSucceeds(db, ctx, deletedTs.value);
      }
    }
  }

  /** Removing a card keeps one card per message. */
  lemma {:induction false} RemoveKeepsTsUnique(cards: seq<TimeCard>, i: nat)
    requires TsUnique(cards) && i < |cards|
    ensures TsUnique(cards[..i] + cards[i + 1..])
  {
    var rest := cards[..i] + cards[i + 1..];
    assert forall k :: 0 <= k < |rest| ==> rest[k] == cards[if k < i then k else k + 1];
  }

  /** Every outcome leaves a valid database with one card per message. */
  lemma {:induction false} DeleteKeepsInvariants(db: Db, ctx: Ctx, deletedTs: Option<string>, fault: Option<DbError>)
    requires ValidDb(db) && TsUnique(db.cards)
    ensures ValidDb(OnMessageDelete(db, ctx, deletedTs, fault).1)
    ensures TsUnique(OnMessageDelete(db, ctx, deletedTs, fault).1.cards)
  {
    if ContextAvailable(ctx) && deletedTs.Some? && FindCardByTs(db.cards, deletedTs.value).OneRow? {
      var i := FindCardByTs(db.cards, deletedTs.value).row;
      RemoveCardConstraints(db, i);
      TransactKeepsValid(db, RemoveCard(db, i), fault);
      RemoveKeepsTsUnique(db.cards, i);
    }
  }

  /** Deleting the same message twice: the second event finds no card and
      changes nothing. */
  lemma {:induction false} DeleteTwiceIsNoCard(db: Db, ctx: Ctx, ts: string, fault: Option<DbError>)
    requires TsUnique(db.cards)
    requires OnMessageDelete(db, ctx, Some(ts), fault).0.Deleted?
    ensures var db1 := OnMessageDelete(db, ctx, Some(ts), fault).1;
      OnMessageDelete(db1, ctx, Some(ts), None) == (NoCard, db1)
  {
    DeleteRemovesOnlyThatCard(db, ctx, ts, fault);
  }

  /** Deleting the message of the last card removes just that card. */
  lemma {:induction false} DeleteLast(db: Db, ctx: Ctx, ts: string)
    requires ValidDb(db) && ContextAvailable(ctx) && |db.cards| > 0
    requires FindCardByTs(db.cards, ts) == OneRow(|db.cards| - 1)
    ensures var r := OnMessageDelete(db, ctx, Some(ts), None);
      r.0.Deleted? && r.1.cards == db.cards[..|db.cards| - 1] && r.1.users == db.users && r.1.ras == db.ras
  {
    DeleteSucceeds(db, ctx, ts);
    var n := |db.cards| - 1;
    assert db.cards[..n] + db.cards[n + 1..] == db.cards[..n];
  }

  /** Reporting a piece of work and then deleting the report leaves the
      cards as they were before the report. */
  lemma {:induction false} ReportThenDeleteRestoresCards(db: Db, ctx: Ctx, raId: nat, w: Work, ts: string)
    requires ValidDb(db) && ContextAvailable(ctx) && FindCardByTs(db.cards, ts).NoRow?
    requires HasRa(db.ras, raId) && Before(w.startTime, w.endTime)
    ensures var db1 := OnMention.Upsert(db, raId, w, ts, None).1;
      var r := OnMessageDelete(db1, ctx, Some(ts), None);
      r.0.Deleted? && r.1.cards == db.cards && r.1.users == db.users && r.1.ras == db.ras
  {
    var db1 := ReportedState(db, raId, w, ts);
    DeleteLast(db1, ctx, ts);
    assert db1.cards[..|db1.cards| - 1] == db.cards;
  }

  /** The state a first report of ts leaves. */
  lemma {:induction false} ReportedState(db: Db, raId: nat, w: Work, ts: string) returns (db1: Db)
    requires ValidDb(db) && FindCardByTs(db.cards, ts).NoRow?
    requires HasRa(db.ras, raId) && Before(w.startTime, w.endTime)
    ensures db1 == OnMention.Upsert(db, raId, w, ts, None).1
    ensures ValidDb(db1) && |db1.cards| == |db.cards| + 1 && db1.cards[..|db.cards|] == db.cards
    ensures FindCardByTs(db1.cards, ts) == OneRow(|db.cards|)
    ensures db1.users == db.users && db1.ras == db.ras
  {
    OnMention.InsertedState(db, raId, w, ts);
    db1 := NewCard(db, raId, w, ts);
    NewCardConstraints(db, raId, w, ts);
    OnMention.NewCardFound(db, raId, w, ts);
    assert db1.cards[..|db.cards|] == db.cards;
  }

  /** The success reply: `:wastebasket: {start}から{end}の作業記録を削除しました。`
      with both instants as `str(datetime)` writes them. */
  function DeletedReply(card: TimeCard): (s: string)
    ensures |s| == 67 && s[..14] == ":wastebasket: "
    ensures s[14..33] == IsoStamp(card.startTime) && s[33..35] == "から" && s[35..54] == IsoStamp(card.endTime)
  {
    var a := IsoStamp(card.startTime);
    var b := IsoStamp(card.endTime);
    var p := ":wastebasket: " + a;
    assert p[..14] == ":wastebasket: " && p[14..] == a;
    var q := p + "から" + b;
    assert q[..33] == p && q[33..35] == "から" && q[35..] == b;
    var s := q + "の作業記録を削除しました。";
    assert s[..54] == q;
    s
  }

  /** The handler on the store. */
  method HandleMessageDelete(store: Store, ctx: Ctx, deletedTs: Option<string>, fault: Option<DbError>) returns (out: DeleteOutcome)
    modifies store
    ensures (out, store.State()) == OnMessageDelete(old(store.State()), ctx, deletedTs, fault)
    ensures old(store.Valid() && TsUnique(store.cards)) ==> store.Valid() && TsUnique(store.cards)
  {
    if !ContextAvailable(ctx) {
      out := ContextMissing;
    } else if deletedTs.None? {
      out := Ignored;
    } else {
      var found := FindCardByTs(store.cards, deletedTs.value);
      match found {
        case NoRow => out := NoCard;
        case ManyRows => out := Ambiguous;
        case OneRow(i) =>
          var card := store.cards[i];
          var err := store.DeleteCard(i, fault);
          out := if err.None? then Deleted(card) else DeleteFailed(err.value);
      }
    }
    if old(store.Valid() && TsUnique(store.cards)) {
      DeleteKeepsInvariants(old(store.State()), ctx, deletedTs, fault);
    }
  }
}
