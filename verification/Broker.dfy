/**
 The local message broker: one table of rows that stands for a FIFO queue per queue and per
 topic subscription, with expiry, fan-out and a bound on the number of rows.

 The table is the sequence of its rows by id. A new row gets one more than the largest id
 present, so an id can come back once the row that had it is gone.
 */
module Broker {
  import opened Common

  const LIMIT := 10000

  datatype Ttl = NoTtl | BadTtl | Seconds(seconds: real)

  /** A JSON message: its payload when that is a string, its TTL, and everything else. */
  datatype Message = Message(payload: Option<string>, ttl: Ttl, other: int) {
    predicate Valid() {
      payload.Some? && (ttl.NoTtl? || (ttl.Seconds? && ttl.seconds > 0.0))
    }
  }

  datatype Key = Key(kind: string, entity: string, consumer: string)

  datatype Row = Row(id: nat, key: Key, expires: Option<real>, message: Message)

  datatype Db = Db(entities: set<(string, string)>, subscriptions: seq<(string, string)>, rows: seq<Row>)

  datatype Error = Invalid | Missing | Full

  datatype Reply = Created | Accepted(copies: nat) | Delivered(message: Message) | Nothing | Failed(error: Error)

  predicate IsNameChar(c: char) {
    '0' <= c <= '9' || 'A' <= c <= 'Z' || 'a' <= c <= 'z'
  }

  predicate IsName(s: string) {
    && 1 <= |s| <= 200 && IsNameChar(s[0])
    && forall i :: 0 < i < |s| ==> IsNameChar(s[i]) || s[i] in {'.', '_', '-'}
  }

  // ----- Table operations -----

  predicate Expired(expires: Option<real>, now: real) {
    expires.Some? && expires.value <= now
  }

  function Purge(rows: seq<Row>, now: real): (r: seq<Row>)
    ensures |r| <= |rows| && forall x :: x in r ==> x in rows
  {
    if rows == [] then []
    else (if Expired(rows[0].expires, now) then [] else [rows[0]]) + Purge(rows[1..], now)
  }

  /** One more than the largest id present, or one. */
  function NewId(rows: seq<Row>): (r: nat)
    ensures forall x :: x in rows ==> x.id < r
    ensures r == 1 || exists x :: x in rows && r == x.id + 1
  {
    if rows == [] then 1
    else
      var rest := NewId(rows[1..]);
      if rows[0].id < rest then rest else rows[0].id + 1
  }

  function InsertAll(rows: seq<Row>, keys: seq<Key>, expires: Option<real>, m: Message): seq<Row>
    decreases |keys|
  {
    if keys == [] then rows
    else InsertAll(rows + [Row(NewId(rows), keys[0], expires, m)], keys[1..], expires, m)
  }

  /** The row of `key` with the smallest id. */
  function Oldest(rows: seq<Row>, key: Key): (r: Option<Row>)
    ensures r.Some? ==> r.value in rows && r.value.key == key
  {
    if rows == [] then None
    else
      var rest := Oldest(rows[1..], key);
      if rows[0].key == key && (rest.None? || rows[0].id < rest.value.id) then Some(rows[0]) else rest
  }

  function DeleteId(rows: seq<Row>, id: nat): seq<Row> {
    if rows == [] then []
    else (if rows[0].id == id then [] else [rows[0]]) + DeleteId(rows[1..], id)
  }

  function Subscribers(subscriptions: seq<(string, string)>, kind: string, topic: string): seq<Key> {
    if subscriptions == [] then []
    else (if subscriptions[0].0 == topic then [Key(kind, topic, subscriptions[0].1)] else [])
         + Subscribers(subscriptions[1..], kind, topic)
  }

  /** Where a publish goes: the queue itself, or every subscription of the topic. */
  function Targets(db: Db, kind: string, name: string): seq<Key> {
    if kind == "queues" then [Key(kind, name, "")] else Subscribers(db.subscriptions, kind, name)
  }

  // ----- The operations; a failure leaves the database as it was -----

  datatype Op =
    | Create(kind: string, name: string, subscription: Option<string>)
    | Publish(kind: string, name: string, message: Message, now: real, later: real)
    | Consume(kind: string, name: string, consumer: string, now: real)

  function Expiry(m: Message, now: real): Option<real> {
    if m.ttl.Seconds? then Some(now + m.ttl.seconds) else None
  }

  function DoCreate(db: Db, kind: string, name: string, subscription: Option<string>): (Db, Reply) {
    if !IsName(name) then (db, Failed(Invalid))
    else if subscription.None? then (db.(entities := db.entities + {(kind, name)}), Created)
    else if !IsName(subscription.value) then (db, Failed(Invalid))
    else if ("topics", name) !in db.entities then (db, Failed(Missing))
    else
      var s := (name, subscription.value);
      (if s in db.subscriptions then db else db.(subscriptions := db.subscriptions + [s]), Created)
  }

  function DoPublish(db: Db, kind: string, name: string, m: Message, now: real, later: real): (Db, Reply) {
    if !IsName(name) || !m.Valid() then (db, Failed(Invalid))
    else if (kind, name) !in db.entities then (db, Failed(Missing))
    else
      var rows, targets := Purge(db.rows, now), Targets(db, kind, name);
      if |rows| + |targets| > LIMIT then (db, Failed(Full))
      else (db.(rows := InsertAll(rows, targets, Expiry(m, later), m)), Accepted(|targets|))
  }

  function DoConsume(db: Db, kind: string, name: string, consumer: string, now: real): (Db, Reply) {
    if (kind, name) !in db.entities || (kind == "topics" && (name, consumer) !in db.subscriptions)
    then (db, Failed(Missing))
    else
      var rows := Purge(db.rows, now);
      match Oldest(rows, Key(kind, name, consumer))
      case None => (db.(rows := rows), Nothing)
      case Some(row) => (db.(rows := DeleteId(rows, row.id)), Delivered(row.message))
  }

  function Step(db: Db, op: Op): (Db, Reply) {
    match op
    case Create(kind, name, subscription) => DoCreate(db, kind, name, subscription)
    case Publish(kind, name, m, now, later) => DoPublish(db, kind, name, m, now, later)
    case Consume(kind, name, consumer, now) => DoConsume(db, kind, name, consumer, now)
  }

  const EMPTY := Db({}, [], [])

  function Run(ops: seq<Op>): Db {
    if ops == [] then EMPTY else Step(Run(ops[..|ops| - 1]), ops[|ops| - 1]).0
  }

  // ----- What every operation keeps -----

  ghost predicate ById(rows: seq<Row>) {
    forall i, j :: 0 <= i < j < |rows| ==> rows[i].id < rows[j].id
  }

  ghost predicate Inv(db: Db) {
    && ById(db.rows) && |db.rows| <= LIMIT
    && forall i, j :: 0 <= i < j < |db.subscriptions| ==> db.subscriptions[i] != db.subscriptions[j]
  }

  lemma {:induction false} ByIdTail(rows: seq<Row>)
    requires ById(rows) && rows != []
    ensures ById(rows[1..]) && forall x :: x in rows[1..] ==> rows[0].id < x.id
  {
    assert forall i :: 0 <= i < |rows[1..]| ==> rows[1..][i] == rows[i + 1];
  }

  /** Keeping or dropping the first row of an ordered table. */
  lemma {:induction false} ByIdCons(row: Row, keep: bool, rest: seq<Row>)
    requires ById(rest) && forall x :: x in rest ==> row.id < x.id
    ensures ById((if keep then [row] else []) + rest)
  {
    assert forall i :: 0 <= i < |rest| ==> rest[i] in rest;
    assert [] + rest == rest;
  }

  lemma {:induction false} PurgeById(rows: seq<Row>, now: real)
    requires ById(rows)
    ensures ById(Purge(rows, now))
  {
    if rows != [] {
      hide ById;
      ByIdTail(rows);
      PurgeById(rows[1..], now);
      ByIdCons(rows[0], !Expired(rows[0].expires, now), Purge(rows[1..], now));
    }
  }

  lemma {:induction false} InsertById(rows: seq<Row>, keys: seq<Key>, expires: Option<real>, m: Message)
    requires ById(rows)
    ensures ById(InsertAll(rows, keys, expires, m))
    ensures |InsertAll(rows, keys, expires, m)| == |rows| + |keys|
    decreases |keys|
  {
    if keys != [] {
      assert forall i :: 0 <= i < |rows| ==> rows[i] in rows;
      InsertById(rows + [Row(NewId(rows), keys[0], expires, m)], keys[1..], expires, m);
    }
  }

  lemma {:induction false} DeleteById(rows: seq<Row>, id: nat)
    requires ById(rows)
    ensures ById(DeleteId(rows, id)) && |DeleteId(rows, id)| <= |rows|
    ensures forall x :: x in DeleteId(rows, id) ==> x in rows
  {
    if rows != [] {
      hide ById;
      ByIdTail(rows);
      DeleteById(rows[1..], id);
      ByIdCons(rows[0], rows[0].id != id, DeleteId(rows[1..], id));
    }
  }

  lemma {:induction false} StepKeepsInv(db: Db, op: Op)
    requires Inv(db)
    ensures Inv(Step(db, op).0)
  {
    hide Purge, InsertAll, DeleteId, Targets, Oldest;
    match op
    case Create(_, name, subscription) =>
    case Publish(kind, name, m, now, later) =>
      PurgeById(db.rows, now);
      InsertById(Purge(db.rows, now), Targets(db, kind, name), Expiry(m, later), m);
    case Consume(kind, name, consumer, now) =>
      PurgeById(db.rows, now);
      var row := Oldest(Purge(db.rows, now), Key(kind, name, consumer));
      if row.Some? {
        DeleteById(Purge(db.rows, now), row.value.id);
      }
  }

  /** After every run: at most `LIMIT` rows, in id order, and no subscription twice. */
  lemma {:induction false} RunKeepsInv(ops: seq<Op>)
    ensures Inv(Run(ops)) && |Run(ops).rows| <= 10000
  {
    if ops != [] {
      RunKeepsInv(ops[..|ops| - 1]);
      StepKeepsInv(Run(ops[..|ops| - 1]), ops[|ops| - 1]);
    }
  }

  // ----- The queue of one consumer -----

  /** A message waiting for a consumer. */
  datatype Item = Item(expires: Option<real>, message: Message)

  /** The rows of one consumer, in id order. */
  function Queue(rows: seq<Row>, key: Key): seq<Item> {
    if rows == [] then []
    else (if rows[0].key == key then [Item(rows[0].expires, rows[0].message)] else []) + Queue(rows[1..], key)
  }

  function Fresh(items: seq<Item>, now: real): seq<Item> {
    if items == [] then []
    else (if Expired(items[0].expires, now) then [] else [items[0]]) + Fresh(items[1..], now)
  }

  lemma {:induction false} FreshAppend(a: seq<Item>, b: seq<Item>, now: real)
    ensures Fresh(a + b, now) == Fresh(a, now) + Fresh(b, now)
  {
    if a == [] {
      assert a + b == b;
    } else {
      assert (a + b)[1..] == a[1..] + b;
      FreshAppend(a[1..], b, now);
    }
  }

  lemma {:induction false} QueueAppend(a: seq<Row>, b: seq<Row>, key: Key)
    ensures Queue(a + b, key) == Queue(a, key) + Queue(b, key)
  {
    if a == [] {
      assert a + b == b;
    } else {
      assert (a + b)[1..] == a[1..] + b;
      QueueAppend(a[1..], b, key);
    }
  }

  /** Purging the table purges every queue. */
  lemma {:induction false} QueuePurge(rows: seq<Row>, now: real, key: Key)
    ensures Queue(Purge(rows, now), key) == Fresh(Queue(rows, key), now)
  {
    if rows != [] {
      QueuePurge(rows[1..], now, key);
      var r := rows[0];
      var first := if Expired(r.expires, now) then [] else [r];
      QueueAppend(first, Purge(rows[1..], now), key);
      var item := if r.key == key then [Item(r.expires, r.message)] else [];
      FreshAppend(item, Queue(rows[1..], key), now);
      assert first != [] ==> first[1..] == [];
      assert item != [] ==> item[1..] == [];
    }
  }

  function Occurrences(keys: seq<Key>, key: Key): nat {
    if keys == [] then 0 else (if keys[0] == key then 1 else 0) + Occurrences(keys[1..], key)
  }

  function Copies(item: Item, n: nat): seq<Item> {
    if n == 0 then [] else [item] + Copies(item, n - 1)
  }

  lemma {:induction false} QueueNext(rows: seq<Row>, row: Row, key: Key)
    ensures Queue(rows + [row], key) == Queue(rows, key) + if row.key == key then [Item(row.expires, row.message)] else []
  {
    QueueAppend(rows, [row], key);
    assert Queue([row][1..], key) == [];
  }

  lemma {:induction false} QueueInsert(rows: seq<Row>, keys: seq<Key>, expires: Option<real>, m: Message, key: Key)
    ensures Queue(InsertAll(rows, keys, expires, m), key)
         == Queue(rows, key) + Copies(Item(expires, m), Occurrences(keys, key))
    decreases |keys|
  {
    hide Queue, NewId;
    if keys != [] {
      var row := Row(NewId(rows), keys[0], expires, m);
      QueueInsert(rows + [row], keys[1..], expires, m, key);
      QueueNext(rows, row, key);
      Regroup(Queue(rows, key), [Item(expires, m)], Copies(Item(expires, m), Occurrences(keys[1..], key)));
    }
  }

  /** In an ordered table the row of a consumer with the smallest id is the head of its queue. */
  lemma {:induction false} OldestIsHead(rows: seq<Row>, key: Key)
    requires ById(rows)
    ensures var o, q := Oldest(rows, key), Queue(rows, key);
            (o.None? <==> q == []) && (o.Some? ==> Item(o.value.expires, o.value.message) == q[0])
  {
    if rows != [] {
      ByIdTail(rows);
      OldestIsHead(rows[1..], key);
    }
  }

  /** Deleting that row takes the head off its queue and leaves every other queue alone. */
  lemma {:induction false} QueueDelete(rows: seq<Row>, row: Row, key: Key)
    requires ById(rows) && Oldest(rows, row.key) == Some(row)
    ensures Queue(rows, row.key) != []
    ensures Queue(DeleteId(rows, row.id), key)
         == if key == row.key then Queue(rows, key)[1..] else Queue(rows, key)
  {
    hide ById;
    OldestIsHead(rows, row.key);
    ByIdTail(rows);
    var first, rest := rows[0], rows[1..];
    if first.key == row.key {
      assert first == row;
      DeleteAbsent(rest, row.id);
      assert DeleteId(rows, row.id) == rest;
    } else {
      QueueDelete(rest, row, key);
      assert DeleteId(rows, row.id) == [first] + DeleteId(rest, row.id);
      QueueAppend([first], DeleteId(rest, row.id), key);
      assert [first][1..] == [];
      if key == row.key {
        assert Queue(rows, key) == Queue(rest, key);
      }
    }
  }

  lemma {:induction false} DeleteAbsent(rows: seq<Row>, id: nat)
    requires forall x :: x in rows ==> x.id != id
    ensures DeleteId(rows, id) == rows
  {
    if rows != [] {
      DeleteAbsent(rows[1..], id);
    }
  }
}
