/** The SELECT statements the handlers run: lookups by Slack user id, by RA
    name and by message ts, the three-table join, the month filter and the
    two ORDER BY clauses. Rows are returned in table order; ORDER BY is a
    stable sort of that order. */
module Queries {
  import opened Text
  import opened Calendar
  import opened Model

  // ------------------------------------------------------------ lookups

  /** `select(User).where(User.slack_user_id == slack).scalar_one_or_none()`,
      as an index into the user table. */
  function UserBySlackId(users: seq<User>, slackUserId: string): (r: Lookup<nat>)
    ensures r.NoRow? <==> forall k :: 0 <= k < |users| ==> users[k].slackUserId != slackUserId
    ensures r.OneRow? ==> (r.row < |users| && users[r.row].slackUserId == slackUserId
      && forall k :: 0 <= k < |users| && k != r.row ==> users[k].slackUserId != slackUserId)
    ensures r.ManyRows? ==> exists i, j :: 0 <= i < j < |users| && users[i].slackUserId == slackUserId && users[j].slackUserId == slackUserId
  {
    var ix := UsersWithSlackId(users, slackUserId);
    if |ix| == 0 then NoRow
    else if |ix| == 1 then OneRow(ix[0])
    else
      assert users[ix[0]].slackUserId == users[ix[1]].slackUserId;
      ManyRows
  }

  function UsersWithSlackId(users: seq<User>, slackUserId: string): (ix: seq<nat>)
    ensures forall k :: 0 <= k < |ix| ==> ix[k] < |users| && users[ix[k]].slackUserId == slackUserId
    ensures forall i :: 0 <= i < |users| && users[i].slackUserId == slackUserId ==> i in ix
    ensures forall a, b :: 0 <= a < b < |ix| ==> ix[a] < ix[b]
  {
    if users == [] then []
    else
      var rest := UsersWithSlackId(users[..|users| - 1], slackUserId);
      if users[|users| - 1].slackUserId == slackUserId then rest + [|users| - 1] else rest
  }

  /** The unique Slack user id makes the user lookup unambiguous. */
  lemma {:induction false} UserBySlackIdUnique(db: Db, slackUserId: string)
    requires ValidDb(db)
    ensures !UserBySlackId(db.users, slackUserId).ManyRows?
  {
  }

  /** RA row k belongs to the user whose Slack id is slackUserId. */
  predicate OwnedBy(db: Db, k: nat, slackUserId: string)
    requires k < |db.ras|
  {
    exists u :: 0 <= u < |db.users| && db.users[u].slackUserId == slackUserId && db.users[u].id == db.ras[k].userId
  }

  /** The rows of `User JOIN RA ON User.id == RA.user_id WHERE
      User.slack_user_id == slack AND RA.ra_name == raName`, as indices into
      the RA table. */
  function RasNamed(db: Db, slackUserId: string, raName: string, from: nat): (ix: seq<nat>)
    requires from <= |db.ras|
    ensures forall k :: 0 <= k < |ix| ==> from <= ix[k] < |db.ras| && db.ras[ix[k]].raName == raName && OwnedBy(db, ix[k], slackUserId)
    ensures forall k :: from <= k < |db.ras| && db.ras[k].raName == raName && OwnedBy(db, k, slackUserId) ==> k in ix
    ensures forall a, b :: 0 <= a < b < |ix| ==> ix[a] < ix[b]
    decreases |db.ras| - from
  {
    if from == |db.ras| then []
    else
      var rest := RasNamed(db, slackUserId, raName, from + 1);
      if db.ras[from].raName == raName && OwnedBy(db, from, slackUserId) then [from] + rest else rest
  }

  /** `.first()` of that join: the actor's RA job called raName, as its id. */
  function FindRa(db: Db, slackUserId: string, raName: string): (r: Option<nat>)
    ensures r.None? <==> forall k :: 0 <= k < |db.ras| ==> !(db.ras[k].raName == raName && OwnedBy(db, k, slackUserId))
    ensures r.Some? ==> exists k :: 0 <= k < |db.ras| && db.ras[k].id == r.value && db.ras[k].raName == raName && OwnedBy(db, k, slackUserId)
  {
    var ix := RasNamed(db, slackUserId, raName, 0);
    if ix == [] then None else Some(db.ras[ix[0]].id)
  }

  // ------------------------------------------------------------ the join

  /** A row of `select(User, RA, TimeCard)`. */
  datatype Row = Row(user: User, ra: Ra, card: TimeCard)

  /** The user row with id `id`, if any. */
  function UserWithId(users: seq<User>, id: nat): (r: Option<User>)
    ensures r.Some? ==> r.value in users && r.value.id == id
    ensures r.None? ==> !HasUser(users, id)
  {
    if users == [] then None
    else if users[0].id == id then Some(users[0])
    else
      var r := UserWithId(users[1..], id);
      assert r.None? ==> forall k :: 1 <= k < |users| ==> users[k].id != id by {
        if r.None? {
          forall k | 1 <= k < |users| ensures users[k].id != id { assert users[1..][k - 1] == users[k]; }
        }
      }
      r
  }

  /** The RA row with id `id`, if any. */
  function RaWithId(ras: seq<Ra>, id: nat): (r: Option<Ra>)
    ensures r.Some? ==> r.value in ras && r.value.id == id
    ensures r.None? ==> !HasRa(ras, id)
  {
    if ras == [] then None
    else if ras[0].id == id then Some(ras[0])
    else
      var r := RaWithId(ras[1..], id);
      assert r.None? ==> forall k :: 1 <= k < |ras| ==> ras[k].id != id by {
        if r.None? {
          forall k | 1 <= k < |ras| ensures ras[k].id != id { assert ras[1..][k - 1] == ras[k]; }
        }
      }
      r
  }

  /** The row of card c joined with its RA job and that job's user. */
  function JoinCard(db: Db, c: TimeCard): (r: Option<Row>)
    ensures r.Some? ==> (r.value.card == c && r.value.ra in db.ras && r.value.ra.id == c.raId
      && r.value.user in db.users && r.value.user.id == r.value.ra.userId)
  {
    match RaWithId(db.ras, c.raId)
    case None => None
    case Some(ra) =>
      match UserWithId(db.users, ra.userId)
      case None => None
      case Some(u) => Some(Row(u, ra, c))
  }

  /** The WHERE clause: the actor's cards (when an actor is given) that start
      on or after the window's first instant and end before its last. */
  predicate Matches(row: Row, slackUserId: Option<string>, w: Window)
  {
    && (slackUserId.Some? ==> row.user.slackUserId == slackUserId.value)
    && InWindow(row.card.startTime, row.card.endTime, w)
  }

  /** A row of the join that the WHERE clause keeps. */
  predicate Selected(db: Db, row: Row, slackUserId: Option<string>, w: Window)
  {
    && row.ra in db.ras && row.user in db.users && row.card in db.cards
    && row.ra.id == row.card.raId && row.user.id == row.ra.userId
    && Matches(row, slackUserId, w)
  }

  /** Card c joins with its RA job and user and the WHERE clause keeps it. */
  predicate Keeps(db: Db, c: TimeCard, slackUserId: Option<string>, w: Window)
  {
    JoinCard(db, c).Some? && Matches(JoinCard(db, c).value, slackUserId, w)
  }

  /** The card of each row, in row order. */
  function CardsOf(rows: seq<Row>): (cs: seq<TimeCard>)
    ensures |cs| == |rows| && forall k :: 0 <= k < |rows| ==> cs[k] == rows[k].card
  {
    if rows == [] then [] else [rows[0].card] + CardsOf(rows[1..])
  }

  /** `TimeCard JOIN RA ON RA.id == TimeCard.ra_id JOIN User ON User.id == RA.user_id`
      with the WHERE clause, over the whole card table, in table order. */
  function SelectRows(db: Db, slackUserId: Option<string>, w: Window): (rows: seq<Row>)
    ensures forall k :: 0 <= k < |rows| ==> Selected(db, rows[k], slackUserId, w)
    ensures forall i :: 0 <= i < |db.cards| && Keeps(db, db.cards[i], slackUserId, w) ==> JoinCard(db, db.cards[i]).value in rows
    ensures forall row :: row in rows ==> JoinCard(db, row.card) == Some(row)
    ensures forall c :: multiset(CardsOf(rows))[c] == if Keeps(db, c, slackUserId, w) then multiset(db.cards)[c] else 0
  {
    JoinRowsOwnCard(db, db.cards, slackUserId, w);
    assert forall c ::
      multiset(CardsOf(JoinRowsIn(db, db.cards, slackUserId, w)))[c] == if Keeps(db, c, slackUserId, w) then multiset(db.cards)[c] else 0 by {
      forall c { JoinRowsCount(db, db.cards, slackUserId, w, c); }
    }
    JoinRowsIn(db, db.cards, slackUserId, w)
  }

  function JoinRowsIn(db: Db, cards: seq<TimeCard>, slackUserId: Option<string>, w: Window): (rows: seq<Row>)
    requires forall c :: c in cards ==> c in db.cards
    ensures forall k :: 0 <= k < |rows| ==> Selected(db, rows[k], slackUserId, w)
    ensures forall i :: 0 <= i < |cards| && Keeps(db, cards[i], slackUserId, w) ==> JoinCard(db, cards[i]).value in rows
  {
    if cards == [] then []
    else
      assert forall c :: c in cards[1..] ==> c in cards;
      var rest := JoinRowsIn(db, cards[1..], slackUserId, w);
      assert forall i :: 1 <= i < |cards| ==> cards[i] == cards[1..][i - 1];
      match JoinCard(db, cards[0])
      case None => rest
      case Some(row) =>
        if Matches(row, slackUserId, w) then [row] + rest else rest
  }

  /** Each row of the join is the join of its own card. */
  lemma {:induction false} JoinRowsOwnCard(db: Db, cards: seq<TimeCard>, slackUserId: Option<string>, w: Window)
    requires forall c :: c in cards ==> c in db.cards
    ensures forall row :: row in JoinRowsIn(db, cards, slackUserId, w) ==> JoinCard(db, row.card) == Some(row)
  {
    if cards != [] {
      assert forall c :: c in cards[1..] ==> c in cards;
      JoinRowsOwnCard(db, cards[1..], slackUserId, w);
      var rest := JoinRowsIn(db, cards[1..], slackUserId, w);
      var rows := JoinRowsIn(db, cards, slackUserId, w);
      assert forall row :: row in rows ==> row in rest || row == JoinCard(db, cards[0]).value;
    }
  }

  /** A card the WHERE clause keeps gives as many rows as it has copies in the
      table (one, when ids are unique); a card it drops gives none. */
  lemma {:induction false} JoinRowsCount(db: Db, cards: seq<TimeCard>, slackUserId: Option<string>, w: Window, c: TimeCard)
    requires forall c :: c in cards ==> c in db.cards
    ensures multiset(CardsOf(JoinRowsIn(db, cards, slackUserId, w)))[c]
      == if Keeps(db, c, slackUserId, w) then multiset(cards)[c] else 0
  {
    if cards != [] {
      assert forall c :: c in cards[1..] ==> c in cards;
      JoinRowsCount(db, cards[1..], slackUserId, w, c);
      JoinRowsHead(db, cards, slackUserId, w, c);
      CountCons(cards, c);
    }
  }

  /** The first card adds one to its own count exactly when it is kept. */
  lemma {:induction false} JoinRowsHead(db: Db, cards: seq<TimeCard>, slackUserId: Option<string>, w: Window, c: TimeCard)
    requires cards != [] && forall c :: c in cards ==> c in db.cards
    ensures multiset(CardsOf(JoinRowsIn(db, cards, slackUserId, w)))[c]
      == multiset(CardsOf(JoinRowsIn(db, cards[1..], slackUserId, w)))[c]
         + if c == cards[0] && Keeps(db, cards[0], slackUserId, w) then 1 else 0
  {
    var rest := JoinRowsIn(db, cards[1..], slackUserId, w);
    var rows := JoinRowsIn(db, cards, slackUserId, w);
    if Keeps(db, cards[0], slackUserId, w) {
      var row := JoinCard(db, cards[0]).value;
      assert rows == [row] + rest;
      assert CardsOf(rows) == [cards[0]] + CardsOf(rest) by { assert rows[1..] == rest; }
    } else {
      assert rows == rest;
    }
  }

  lemma {:induction false} CountCons(cards: seq<TimeCard>, c: TimeCard)
    requires cards != []
    ensures multiset(cards)[c] == multiset(cards[1..])[c] + if c == cards[0] then 1 else 0
  {
    assert cards == [cards[0]] + cards[1..];
  }

  /** In a valid database every card joins with its RA job and user. */
  lemma {:induction false} JoinTotal(db: Db, c: TimeCard)
    requires ValidDb(db) && c in db.cards
    ensures JoinCard(db, c).Some?
  {
    var i :| 0 <= i < |db.cards| && db.cards[i] == c;
    var rk :| 0 <= rk < |db.ras| && db.ras[rk].id == c.raId;
    var ra := RaWithId(db.ras, c.raId).value;
    var a :| 0 <= a < |db.ras| && db.ras[a] == ra;
    assert HasUser(db.users, ra.userId);
  }

  // ------------------------------------------------------------ ordering

  /** Code-point lexicographic order of strings, a shorter prefix first. */
  predicate StrLe(a: string, b: string)
    decreases |a|
  {
    a == [] || (b != [] && (a[0] < b[0] || (a[0] == b[0] && StrLe(a[1..], b[1..]))))
  }

  lemma {:induction false} StrLeTotal(a: string, b: string)
    ensures StrLe(a, b) || StrLe(b, a)
    decreases |a|
  {
    if a != [] && b != [] && a[0] == b[0] {
      StrLeTotal(a[1..], b[1..]);
    }
  }

  lemma {:induction false} StrLeAntisymmetric(a: string, b: string)
    requires StrLe(a, b) && StrLe(b, a)
    ensures a == b
    decreases |a|
  {
    if a != [] {
      StrLeAntisymmetric(a[1..], b[1..]);
      assert a == [a[0]] + a[1..] && b == [b[0]] + b[1..];
    }
  }

  lemma {:induction false} StrLeTransitive(a: string, b: string, c: string)
    requires StrLe(a, b) && StrLe(b, c)
    ensures StrLe(a, c)
    decreases |a|
  {
    if a != [] && a[0] == b[0] && b[0] == c[0] {
      StrLeTransitive(a[1..], b[1..], c[1..]);
    }
  }

  /** The two ORDER BY clauses: `TimeCard.start_time` alone, and
      `RA.ra_name, User.id, TimeCard.start_time`. */
  datatype SortKey = ByStart | ByRaUserStart

  predicate RowLe(key: SortKey, x: Row, y: Row)
  {
    match key
    case ByStart => Seconds(x.card.startTime) <= Seconds(y.card.startTime)
    case ByRaUserStart =>
      if x.ra.raName != y.ra.raName then StrLe(x.ra.raName, y.ra.raName)
      else if x.user.id != y.user.id then x.user.id < y.user.id
      else Seconds(x.card.startTime) <= Seconds(y.card.startTime)
  }

  lemma {:induction false} RowLeTotal(key: SortKey, x: Row, y: Row)
    ensures RowLe(key, x, y) || RowLe(key, y, x)
  {
    StrLeTotal(x.ra.raName, y.ra.raName);
  }

  lemma {:induction false} RowLeTransitive(key: SortKey, x: Row, y: Row, z: Row)
    requires RowLe(key, x, y) && RowLe(key, y, z)
    ensures RowLe(key, x, z)
  {
    if key == ByRaUserStart {
      var a, b, c := x.ra.raName, y.ra.raName, z.ra.raName;
      if a != b && b != c {
        StrLeTransitive(a, b, c);
        if a == c { StrLeAntisymmetric(a, b); }
      } else if a != c {
        if a == b { assert StrLe(b, c); } else { assert StrLe(a, b); }
      }
    }
  }

  predicate Sorted(key: SortKey, rows: seq<Row>)
  {
    forall i, j :: 0 <= i < j < |rows| ==> RowLe(key, rows[i], rows[j])
  }

  /** x inserted into sorted rows after every row that is not greater. */
  function Insert(key: SortKey, x: Row, rows: seq<Row>): (r: seq<Row>)
    requires Sorted(key, rows)
    ensures multiset(r) == multiset(rows) + multiset{x}
    ensures Sorted(key, r)
  {
    if rows == [] then [x]
    else if !RowLe(key, rows[0], x) then
      assert forall j :: 0 <= j < |rows| ==> RowLe(key, x, rows[j]) by {
        RowLeTotal(key, x, rows[0]);
        forall j | 0 <= j < |rows| ensures RowLe(key, x, rows[j]) {
          if j > 0 { RowLeTransitive(key, x, rows[0], rows[j]); }
        }
      }
      [x] + rows
    else
      var rest := Insert(key, x, rows[1..]);
      var r := [rows[0]] + rest;
      assert rows == [rows[0]] + rows[1..];
      assert forall k :: 0 <= k < |rest| ==> RowLe(key, rows[0], rest[k]) by {
        forall k | 0 <= k < |rest| ensures RowLe(key, rows[0], rest[k]) {
          assert rest[k] in multiset(rest);
          assert rest[k] == x || rest[k] in multiset(rows[1..]);
          if rest[k] != x {
            var j :| 0 <= j < |rows[1..]| && rows[1..][j] == rest[k];
            assert rows[j + 1] == rest[k];
          }
        }
      }
      r
  }

  /** ORDER BY as a stable insertion sort. */
  function SortRows(key: SortKey, rows: seq<Row>): (r: seq<Row>)
    ensures multiset(r) == multiset(rows)
    ensures Sorted(key, r)
  {
    if rows == [] then []
    else
      var r := Insert(key, rows[|rows| - 1], SortRows(key, rows[..|rows| - 1]));
      assert rows == rows[..|rows| - 1] + [rows[|rows| - 1]];
      r
  }

  /** Sorting preserves the rows the WHERE clause selected. */
  lemma {:induction false} SortKeepsSelected(key: SortKey, db: Db, rows: seq<Row>, slackUserId: Option<string>, w: Window)
    requires forall k :: 0 <= k < |rows| ==> Selected(db, rows[k], slackUserId, w)
    ensures forall k :: 0 <= k < |SortRows(key, rows)| ==> Selected(db, SortRows(key, rows)[k], slackUserId, w)
  {
    var r := SortRows(key, rows);
    forall k | 0 <= k < |r| ensures Selected(db, r[k], slackUserId, w) {
      assert r[k] in multiset(rows);
      var j :| 0 <= j < |rows| && rows[j] == r[k];
    }
  }

  /** A reordering of b holds only rows of b. */
  lemma {:induction false} ReorderedMember(a: seq<Row>, b: seq<Row>, i: int)
    requires multiset(a) == multiset(b) && 0 <= i < |a|
    ensures a[i] in b
  {
    assert a[i] in multiset(b);
  }

  /** A reordering of b holds every row of b. */
  lemma {:induction false} ReorderedHolds(a: seq<Row>, b: seq<Row>, x: Row) returns (j: int)
    requires multiset(a) == multiset(b) && x in b
    ensures 0 <= j < |a| && a[j] == x
  {
    assert x in multiset(a);
    j :| 0 <= j < |a| && a[j] == x;
  }
}
