/** The bot's database: the `botuser`, `ra` and `timecard` tables with the
    constraints the schema declares (primary keys, the unique Slack user id,
    the two cascading foreign keys and the `time_integrity` check), and a
    session that applies a change atomically: it either commits the whole
    candidate state or rolls back to the state it started from. */
module Model {
  import opened Text
  import opened Calendar

  /** A row of `botuser`. */
  datatype User = User(id: nat, slackUserId: string, name: string)

  /** A row of `ra`: one RA job of one user. */
  datatype Ra = Ra(id: nat, userId: nat, raName: string)

  /** A row of `timecard`: one reported piece of work. */
  datatype TimeCard = TimeCard(
    id: nat,
    raId: nat,
    startTime: Timestamp,
    endTime: Timestamp,
    duration: ClockTime,
    breakDuration: ClockTime,
    description: string,
    slackMessageTs: string)

  /** The errors a flush or commit can raise. The first four are the
      IntegrityError family of the database driver; OperationalError stands for
      everything else the connection can fail with. */
  datatype DbError = UniqueViolation | ForeignKeyViolation | CheckViolation | OtherIntegrityError | OperationalError
  {
    predicate IsIntegrityError()
    {
      !OperationalError?
    }
  }

  /** The content of the three tables, with the next value of each id sequence. */
  datatype Db = Db(
    users: seq<User>,
    ras: seq<Ra>,
    cards: seq<TimeCard>,
    nextUserId: nat,
    nextRaId: nat,
    nextCardId: nat)

  // ------------------------------------------------------------ constraints

  predicate HasUser(users: seq<User>, id: nat)
  {
    exists k :: 0 <= k < |users| && users[k].id == id
  }

  predicate HasRa(ras: seq<Ra>, id: nat)
  {
    exists k :: 0 <= k < |ras| && ras[k].id == id
  }

  /** `end_time > start_time` for every card (the `time_integrity` check). */
  predicate TimesIntact(cards: seq<TimeCard>)
  {
    forall i :: 0 <= i < |cards| ==> Before(cards[i].startTime, cards[i].endTime)
  }

  /** The primary keys and the unique `slack_user_id`. */
  predicate KeysUnique(db: Db)
  {
    && (forall i, j :: 0 <= i < j < |db.users| ==> db.users[i].id != db.users[j].id)
    && (forall i, j :: 0 <= i < j < |db.users| ==> db.users[i].slackUserId != db.users[j].slackUserId)
    && (forall i, j :: 0 <= i < j < |db.ras| ==> db.ras[i].id != db.ras[j].id)
    && (forall i, j :: 0 <= i < j < |db.cards| ==> db.cards[i].id != db.cards[j].id)
  }

  /** `ra.user_id` references `botuser.id`, `timecard.ra_id` references `ra.id`. */
  predicate ReferencesExist(db: Db)
  {
    && (forall i :: 0 <= i < |db.ras| ==> HasUser(db.users, db.ras[i].userId))
    && (forall i :: 0 <= i < |db.cards| ==> HasRa(db.ras, db.cards[i].raId))
  }

  /** Every constraint the schema declares. */
  predicate Constraints(db: Db)
  {
    TimesIntact(db.cards) && KeysUnique(db) && ReferencesExist(db)
  }

  /** The error a flush of state db raises: the check constraint is evaluated
      first, then the unique indexes, then the foreign keys. */
  function Violation(db: Db): (e: Option<DbError>)
    ensures e.None? <==> Constraints(db)
    ensures e == Some(CheckViolation) <==> !TimesIntact(db.cards)
    ensures e.Some? ==> e.value.IsIntegrityError() && !e.value.OtherIntegrityError?
  {
    if !TimesIntact(db.cards) then Some(CheckViolation)
    else if !KeysUnique(db) then Some(UniqueViolation)
    else if !ReferencesExist(db) then Some(ForeignKeyViolation)
    else None
  }

  /** Every id in use was drawn from its sequence, so the next one is fresh. */
  predicate IdsFresh(db: Db)
  {
    && (forall i :: 0 <= i < |db.users| ==> db.users[i].id < db.nextUserId)
    && (forall i :: 0 <= i < |db.ras| ==> db.ras[i].id < db.nextRaId)
    && (forall i :: 0 <= i < |db.cards| ==> db.cards[i].id < db.nextCardId)
  }

  /** A state the database can be in. */
  predicate ValidDb(db: Db)
  {
    Constraints(db) && IdsFresh(db)
  }

  /** At most one card per Slack message. The schema does not declare this; the
      mention handler keeps it by looking the message up before inserting. */
  predicate TsUnique(cards: seq<TimeCard>)
  {
    forall i, j :: 0 <= i < j < |cards| ==> cards[i].slackMessageTs != cards[j].slackMessageTs
  }

  // ------------------------------------------------------------ sessions

  /** The state after a session and the error it raised, if any. */
  datatype Txn = Txn(db: Db, err: Option<DbError>)

  /** A session that started in state db and flushed candidate: `fault` is an
      error the environment raises (a lost connection, a concurrent writer); with
      no fault the flush raises what the constraints demand. Either the whole
      candidate is committed or the session rolls back to db. */
  function Transact(db: Db, candidate: Db, fault: Option<DbError>): (t: Txn)
    ensures t.err.None? <==> fault.None? && Constraints(candidate)
    ensures t.err.None? ==> t.db == candidate
    ensures t.err.Some? ==> t.db == db
    ensures fault.Some? ==> t.err == fault
  {
    if fault.Some? then Txn(db, fault)
    else
      var e := Violation(candidate);
      if e.Some? then Txn(db, e) else Txn(candidate, None)
  }

  /** A committed session whose candidate drew its ids from the sequences
      leaves a valid database. */
  lemma {:induction false} TransactKeepsValid(db: Db, candidate: Db, fault: Option<DbError>)
    requires ValidDb(db) && IdsFresh(candidate)
    ensures ValidDb(Transact(db, candidate, fault).db)
  {
  }

  // ------------------------------------------------------------ row changes

  /** `sess.add(User(...))`: the id is assigned by the store. */
  function NewUser(db: Db, slackUserId: string, name: string): (r: Db)
    ensures r.users == db.users + [User(db.nextUserId, slackUserId, name)]
    ensures r.ras == db.ras && r.cards == db.cards
  {
    db.(users := db.users + [User(db.nextUserId, slackUserId, name)], nextUserId := db.nextUserId + 1)
  }

  /** `sess.add(RA(...))`. */
  function NewRa(db: Db, userId: nat, raName: string): (r: Db)
    ensures r.ras == db.ras + [Ra(db.nextRaId, userId, raName)]
    ensures r.users == db.users && r.cards == db.cards
  {
    db.(ras := db.ras + [Ra(db.nextRaId, userId, raName)], nextRaId := db.nextRaId + 1)
  }

  /** The fields of a card the mention handler writes. */
  datatype Work = Work(startTime: Timestamp, endTime: Timestamp, duration: ClockTime, breakDuration: ClockTime, description: string)

  /** `sess.add(TimeCard(...))`. */
  function NewCard(db: Db, raId: nat, w: Work, ts: string): (r: Db)
    ensures r.cards == db.cards + [TimeCard(db.nextCardId, raId, w.startTime, w.endTime, w.duration, w.breakDuration, w.description, ts)]
    ensures r.users == db.users && r.ras == db.ras
  {
    db.(cards := db.cards + [TimeCard(db.nextCardId, raId, w.startTime, w.endTime, w.duration, w.breakDuration, w.description, ts)],
        nextCardId := db.nextCardId + 1)
  }

  /** Card c with the five written fields replaced; id, RA and ts are kept. */
  function Overwrite(c: TimeCard, w: Work): (r: TimeCard)
    ensures r.id == c.id && r.raId == c.raId && r.slackMessageTs == c.slackMessageTs
    ensures r.startTime == w.startTime && r.endTime == w.endTime && r.duration == w.duration
    ensures r.breakDuration == w.breakDuration && r.description == w.description
  {
    c.(startTime := w.startTime, endTime := w.endTime, duration := w.duration,
       breakDuration := w.breakDuration, description := w.description)
  }

  /** `record.start_time = ...` and the other four assignments on card i. */
  function EditCard(db: Db, i: nat, w: Work): (r: Db)
    requires i < |db.cards|
    ensures |r.cards| == |db.cards| && r.cards[i] == Overwrite(db.cards[i], w)
    ensures forall k :: 0 <= k < |db.cards| && k != i ==> r.cards[k] == db.cards[k]
    ensures r.users == db.users && r.ras == db.ras && r.nextCardId == db.nextCardId
  {
    db.(cards := db.cards[i := Overwrite(db.cards[i], w)])
  }

  /** `sess.delete(record)` on card i. */
  function RemoveCard(db: Db, i: nat): (r: Db)
    requires i < |db.cards|
    ensures r.cards == db.cards[..i] + db.cards[i + 1..]
    ensures r.users == db.users && r.ras == db.ras
  {
    db.(cards := db.cards[..i] + db.cards[i + 1..])
  }

  /** Inserting a user succeeds unless the Slack id is taken. */
  lemma {:induction false} NewUserConstraints(db: Db, slackUserId: string, name: string)
    requires ValidDb(db)
    ensures var r := NewUser(db, slackUserId, name);
      IdsFresh(r)
      && (Constraints(r) <==> forall k :: 0 <= k < |db.users| ==> db.users[k].slackUserId != slackUserId)
      && (!Constraints(r) ==> Violation(r) == Some(UniqueViolation))
  {
    var r := NewUser(db, slackUserId, name);
    var n := |db.users|;
    if forall k :: 0 <= k < n ==> db.users[k].slackUserId != slackUserId {
      forall i, j | 0 <= i < j < |r.users|
        ensures r.users[i].id != r.users[j].id && r.users[i].slackUserId != r.users[j].slackUserId
      {
        if j == n { assert r.users[i] == db.users[i]; }
      }
      forall i | 0 <= i < |r.ras|
        ensures HasUser(r.users, r.ras[i].userId)
      {
        assert r.ras[i] == db.ras[i] && HasUser(db.users, db.ras[i].userId);
        var k :| 0 <= k < n && db.users[k].id == db.ras[i].userId;
        assert r.users[k] == db.users[k];
      }
    } else {
      var k :| 0 <= k < n && db.users[k].slackUserId == slackUserId;
      assert r.users[k].slackUserId == r.users[n].slackUserId;
    }
  }

  /** Inserting an RA succeeds exactly when its user exists. */
  lemma {:induction false} NewRaConstraints(db: Db, userId: nat, raName: string)
    requires ValidDb(db)
    ensures var r := NewRa(db, userId, raName);
      IdsFresh(r)
      && (Constraints(r) <==> HasUser(db.users, userId))
      && (!Constraints(r) ==> Violation(r) == Some(ForeignKeyViolation))
  {
    var r := NewRa(db, userId, raName);
    var n := |db.ras|;
    forall i | 0 <= i < |r.cards|
      ensures HasRa(r.ras, r.cards[i].raId)
    {
      assert r.cards[i] == db.cards[i] && HasRa(db.ras, db.cards[i].raId);
      var k :| 0 <= k < n && db.ras[k].id == db.cards[i].raId;
      assert r.ras[k] == db.ras[k];
    }
    assert r.ras[n].userId == userId;
  }

  /** Inserting a card succeeds exactly when its RA exists and it ends after it starts. */
  lemma {:induction false} NewCardConstraints(db: Db, raId: nat, w: Work, ts: string)
    requires ValidDb(db)
    ensures var r := NewCard(db, raId, w, ts);
      IdsFresh(r)
      && (Constraints(r) <==> HasRa(db.ras, raId) && Before(w.startTime, w.endTime))
      && (!Before(w.startTime, w.endTime) ==> Violation(r) == Some(CheckViolation))
  {
    var r := NewCard(db, raId, w, ts);
    var n := |db.cards|;
    assert r.cards[n].raId == raId && r.cards[n].startTime == w.startTime && r.cards[n].endTime == w.endTime;
    assert forall i :: 0 <= i < n ==> r.cards[i] == db.cards[i];
  }

  /** Overwriting a card keeps every constraint except possibly the time check. */
  lemma {:induction false} EditCardConstraints(db: Db, i: nat, w: Work)
    requires ValidDb(db) && i < |db.cards|
    ensures var r := EditCard(db, i, w);
      IdsFresh(r)
      && (Constraints(r) <==> Before(w.startTime, w.endTime))
      && (!Before(w.startTime, w.endTime) ==> Violation(r) == Some(CheckViolation))
  {
    var r := EditCard(db, i, w);
    assert r.cards[i].startTime == w.startTime && r.cards[i].endTime == w.endTime;
    forall a, b | 0 <= a < b < |r.cards|
      ensures r.cards[a].id != r.cards[b].id
    {
      assert r.cards[a].id == db.cards[a].id && r.cards[b].id == db.cards[b].id;
    }
    forall a | 0 <= a < |r.cards|
      ensures HasRa(r.ras, r.cards[a].raId)
    {
      assert r.cards[a].raId == db.cards[a].raId;
    }
  }

  /** No constraint refers to a card, so removing one always keeps the database valid. */
  lemma {:induction false} RemoveCardConstraints(db: Db, i: nat)
    requires ValidDb(db) && i < |db.cards|
    ensures ValidDb(RemoveCard(db, i))
  {
    var r := RemoveCard(db, i);
    assert forall k :: 0 <= k < |r.cards| ==> r.cards[k] == db.cards[if k < i then k else k + 1];
  }

  // ------------------------------------------------------------ cascades

  function RasNotOf(ras: seq<Ra>, userId: nat): (r: seq<Ra>)
    ensures forall k :: 0 <= k < |r| ==> r[k] in ras && r[k].userId != userId
    ensures forall k :: 0 <= k < |ras| && ras[k].userId != userId ==> ras[k] in r
  {
    if ras == [] then []
    else
      var rest := RasNotOf(ras[1..], userId);
      if ras[0].userId == userId then rest else [ras[0]] + rest
  }

  function CardsNotOf(cards: seq<TimeCard>, raIds: set<nat>): (r: seq<TimeCard>)
    ensures forall k :: 0 <= k < |r| ==> r[k] in cards && r[k].raId !in raIds
    ensures forall k :: 0 <= k < |cards| && cards[k].raId !in raIds ==> cards[k] in r
  {
    if cards == [] then []
    else
      var rest := CardsNotOf(cards[1..], raIds);
      if cards[0].raId in raIds then rest else [cards[0]] + rest
  }

  function RaIdsOf(ras: seq<Ra>, userId: nat): (ids: set<nat>)
    ensures forall k :: 0 <= k < |ras| && ras[k].userId == userId ==> ras[k].id in ids
    ensures forall id :: id in ids ==> exists k :: 0 <= k < |ras| && ras[k].userId == userId && ras[k].id == id
  {
    set k | 0 <= k < |ras| && ras[k].userId == userId :: ras[k].id
  }

  /** Deleting RA job raId: `ondelete="CASCADE"` removes its cards with it. */
  function DeleteRa(db: Db, raId: nat): (r: Db)
    ensures r.users == db.users
    ensures forall k :: 0 <= k < |r.ras| ==> r.ras[k] in db.ras && r.ras[k].id != raId
    ensures forall k :: 0 <= k < |db.ras| && db.ras[k].id != raId ==> db.ras[k] in r.ras
    ensures forall k :: 0 <= k < |r.cards| ==> r.cards[k] in db.cards && r.cards[k].raId != raId
    ensures forall k :: 0 <= k < |db.cards| && db.cards[k].raId != raId ==> db.cards[k] in r.cards
  {
    db.(ras := Without(db.ras, (a: Ra) => a.id, raId), cards := CardsNotOf(db.cards, {raId}))
  }

  /** The rows of a table whose primary key, read by key, is not x, in table order. */
  function Without<T>(rows: seq<T>, key: T -> nat, x: nat): (r: seq<T>)
    ensures forall k :: 0 <= k < |r| ==> r[k] in rows && key(r[k]) != x
    ensures forall k :: 0 <= k < |rows| && key(rows[k]) != x ==> rows[k] in r
  {
    if rows == [] then []
    else
      var rest := Without(rows[1..], key, x);
      if key(rows[0]) == x then rest else [rows[0]] + rest
  }

  /** Some RA job with id raId belongs to user userId. */
  predicate RaOfUser(ras: seq<Ra>, raId: nat, userId: nat)
  {
    exists k :: 0 <= k < |ras| && ras[k].userId == userId && ras[k].id == raId
  }

  /** Deleting user userId: the cascade removes the user's RA jobs and their cards. */
  function DeleteUser(db: Db, userId: nat): (r: Db)
    ensures forall k :: 0 <= k < |r.users| ==> r.users[k] in db.users && r.users[k].id != userId
    ensures forall k :: 0 <= k < |db.users| && db.users[k].id != userId ==> db.users[k] in r.users
    ensures forall k :: 0 <= k < |r.ras| ==> r.ras[k] in db.ras && r.ras[k].userId != userId
    ensures forall k :: 0 <= k < |db.ras| && db.ras[k].userId != userId ==> db.ras[k] in r.ras
    ensures forall k :: 0 <= k < |r.cards| ==> r.cards[k] in db.cards && !RaOfUser(db.ras, r.cards[k].raId, userId)
    ensures forall k :: 0 <= k < |db.cards| && !RaOfUser(db.ras, db.cards[k].raId, userId) ==> db.cards[k] in r.cards
  {
    var gone := RaIdsOf(db.ras, userId);
    db.(users := Without(db.users, (u: User) => u.id, userId), ras := RasNotOf(db.ras, userId),
        cards := CardsNotOf(db.cards, gone))
  }

  /** The cascades keep every foreign key satisfied. */
  lemma {:induction false} DeleteUserKeepsReferences(db: Db, userId: nat)
    requires ValidDb(db)
    ensures ReferencesExist(DeleteUser(db, userId))
  {
    var r := DeleteUser(db, userId);
    SurvivingRasHaveUsers(db, r.users, r.ras, userId);
    SurvivingCardsHaveRas(db, r.ras, r.cards, userId);
  }

  lemma {:induction false} SurvivingRasHaveUsers(db: Db, users: seq<User>, ras: seq<Ra>, userId: nat)
    requires ReferencesExist(db)
    requires users == Without(db.users, (u: User) => u.id, userId) && ras == RasNotOf(db.ras, userId)
    ensures forall i :: 0 <= i < |ras| ==> HasUser(users, ras[i].userId)
  {
    forall i | 0 <= i < |ras|
      ensures HasUser(users, ras[i].userId)
    {
      var a :| 0 <= a < |db.ras| && db.ras[a] == ras[i];
      var k :| 0 <= k < |db.users| && db.users[k].id == db.ras[a].userId;
      var j :| 0 <= j < |users| && users[j] == db.users[k];
    }
  }

  lemma {:induction false} SurvivingCardsHaveRas(db: Db, ras: seq<Ra>, cards: seq<TimeCard>, userId: nat)
    requires ReferencesExist(db)
    requires ras == RasNotOf(db.ras, userId) && cards == CardsNotOf(db.cards, RaIdsOf(db.ras, userId))
    ensures forall i :: 0 <= i < |cards| ==> HasRa(ras, cards[i].raId)
  {
    var gone := RaIdsOf(db.ras, userId);
    forall i | 0 <= i < |cards|
      ensures HasRa(ras, cards[i].raId)
    {
      var c := cards[i];
      var a :| 0 <= a < |db.cards| && db.cards[a] == c;
      var k :| 0 <= k < |db.ras| && db.ras[k].id == c.raId;
      assert c.raId !in gone;
      var j :| 0 <= j < |ras| && ras[j] == db.ras[k];
    }
  }

  /** Deleting an RA job keeps every foreign key satisfied. */
  lemma {:induction false} DeleteRaKeepsReferences(db: Db, raId: nat)
    requires ValidDb(db)
    ensures ReferencesExist(DeleteRa(db, raId))
  {
    var r := DeleteRa(db, raId);
    forall i | 0 <= i < |r.ras|
      ensures HasUser(r.users, r.ras[i].userId)
    {
      var a :| 0 <= a < |db.ras| && db.ras[a] == r.ras[i];
    }
    forall i | 0 <= i < |r.cards|
      ensures HasRa(r.ras, r.cards[i].raId)
    {
      var c := r.cards[i];
      var a :| 0 <= a < |db.cards| && db.cards[a] == c;
      var k :| 0 <= k < |db.ras| && db.ras[k].id == c.raId;
      var j :| 0 <= j < |r.ras| && r.ras[j] == db.ras[k];
    }
  }

  // ------------------------------------------------------------ lookups

  /** The result of `scalar_one_or_none()`: no row, one row, or a
      MultipleResultsFound error. */
  datatype Lookup<T> = NoRow | OneRow(row: T) | ManyRows

  /** The indices of the cards whose Slack message ts is ts, in table order. */
  function CardsWithTs(cards: seq<TimeCard>, ts: string): (ix: seq<nat>)
    ensures forall k :: 0 <= k < |ix| ==> ix[k] < |cards| && cards[ix[k]].slackMessageTs == ts
    ensures forall i :: 0 <= i < |cards| && cards[i].slackMessageTs == ts ==> i in ix
    ensures forall a, b :: 0 <= a < b < |ix| ==> ix[a] < ix[b]
  {
    if cards == [] then []
    else
      var rest := CardsWithTs(cards[..|cards| - 1], ts);
      if cards[|cards| - 1].slackMessageTs == ts then rest + [|cards| - 1] else rest
  }

  /** `select(TimeCard).where(TimeCard.slack_message_ts == ts).scalar_one_or_none()`. */
  function FindCardByTs(cards: seq<TimeCard>, ts: string): (r: Lookup<nat>)
    ensures r.NoRow? <==> forall i :: 0 <= i < |cards| ==> cards[i].slackMessageTs != ts
    ensures r.OneRow? ==> (r.row < |cards| && cards[r.row].slackMessageTs == ts
      && forall i :: 0 <= i < |cards| && i != r.row ==> cards[i].slackMessageTs != ts)
    ensures r.ManyRows? <==> !TsUnique(cards) && exists i, j :: 0 <= i < j < |cards| && cards[i].slackMessageTs == ts && cards[j].slackMessageTs == ts
  {
    var ix := CardsWithTs(cards, ts);
    if |ix| == 0 then NoRow
    else if |ix| == 1 then OneRow(ix[0])
    else
      assert cards[ix[0]].slackMessageTs == cards[ix[1]].slackMessageTs;
      ManyRows
  }

  /** With one card per message a lookup by ts never raises. */
  lemma {:induction false} FindCardByTsUnique(cards: seq<TimeCard>, ts: string)
    requires TsUnique(cards)
    ensures !FindCardByTs(cards, ts).ManyRows?
  {
  }

  // ------------------------------------------------------------ the store

  /** The database as the handlers see it: three tables updated in place
      inside a session that flushes, then commits or rolls back. */
  class Store {
    var users: seq<User>
    var ras: seq<Ra>
    var cards: seq<TimeCard>
    var nextUserId: nat
    var nextRaId: nat
    var nextCardId: nat

    function State(): Db
      reads this
    {
      Db(users, ras, cards, nextUserId, nextRaId, nextCardId)
    }

    predicate Valid()
      reads this
    {
      ValidDb(State())
    }

    /** An empty database whose sequences start at 1. */
    constructor ()
      ensures State() == Db([], [], [], 1, 1, 1)
      ensures Valid()
    {
      users, ras, cards := [], [], [];
      nextUserId, nextRaId, nextCardId := 1, 1, 1;
    }

    /** Put back the state saved when the session began (`sess.rollback()`). */
    method Restore(saved: Db)
      modifies this
      ensures State() == saved
    {
      users, ras, cards := saved.users, saved.ras, saved.cards;
      nextUserId, nextRaId, nextCardId := saved.nextUserId, saved.nextRaId, saved.nextCardId;
    }

    /** `sess.flush(); sess.commit()` on the pending changes, rolling back to
        saved when either raises. */
    method FlushCommit(saved: Db, fault: Option<DbError>) returns (err: Option<DbError>)
      modifies this
      ensures Txn(State(), err) == Transact(saved, old(State()), fault)
    {
      err := if fault.Some? then fault else Violation(State());
      if err.Some? {
        Restore(saved);
      }
    }

    /** `sess.add(User(...))` then flush and commit. */
    method AddUser(slackUserId: string, name: string, fault: Option<DbError>) returns (err: Option<DbError>)
      modifies this
      ensures Txn(State(), err) == Transact(old(State()), NewUser(old(State()), slackUserId, name), fault)
    {
      var saved := State();
      users := users + [User(nextUserId, slackUserId, name)];
      nextUserId := nextUserId + 1;
      err := FlushCommit(saved, fault);
    }

    /** `sess.add(RA(...))` then flush and commit. */
    method AddRa(userId: nat, raName: string, fault: Option<DbError>) returns (err: Option<DbError>)
      modifies this
      ensures Txn(State(), err) == Transact(old(State()), NewRa(old(State()), userId, raName), fault)
    {
      var saved := State();
      ras := ras + [Ra(nextRaId, userId, raName)];
      nextRaId := nextRaId + 1;
      err := FlushCommit(saved, fault);
    }

    /** `sess.add(TimeCard(...))` then flush and commit. */
    method AddCard(raId: nat, w: Work, ts: string, fault: Option<DbError>) returns (err: Option<DbError>)
      modifies this
      ensures Txn(State(), err) == Transact(old(State()), NewCard(old(State()), raId, w, ts), fault)
    {
      var saved := State();
      cards := cards + [TimeCard(nextCardId, raId, w.startTime, w.endTime, w.duration, w.breakDuration, w.description, ts)];
      nextCardId := nextCardId + 1;
      err := FlushCommit(saved, fault);
    }

    /** Assign the five written fields of card i in place, then flush and commit. */
    method UpdateCard(i: nat, w: Work, fault: Option<DbError>) returns (err: Option<DbError>)
      requires i < |cards|
      modifies this
      ensures Txn(State(), err) == Transact(old(State()), EditCard(old(State()), i, w), fault)
    {
      var saved := State();
      cards := cards[i := Overwrite(cards[i], w)];
      err := FlushCommit(saved, fault);
    }

    /** `sess.delete(record)` on card i, then flush and commit. */
    method DeleteCard(i: nat, fault: Option<DbError>) returns (err: Option<DbError>)
      requires i < |cards|
      modifies this
      ensures Txn(State(), err) == Transact(old(State()), RemoveCard(old(State()), i), fault)
    {
      var saved := State();
      cards := cards[..i] + cards[i + 1..];
      err := FlushCommit(saved, fault);
    }
  }
}
