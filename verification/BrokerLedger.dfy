/**
 The broker over whole runs. A ledger per consumer follows every copy published to it by a
 serial number of its own; the table is shown to hold exactly the pending copies.
 */
module BrokerLedger {
  import opened Common
  import opened Broker

  /** A message sent to a consumer, and when. */
  datatype Copy = Copy(serial: nat, message: Message, at: real)

  /** A copy that was delivered or dropped, and when. */
  datatype Exit = Exit(copy: Copy, at: real)

  /** What became of the copies `0..published` sent to one consumer. */
  datatype Ledger = Ledger(published: nat, pending: seq<Copy>, delivered: seq<Exit>, expired: seq<Exit>)

  /** The time to live of the message has run out. */
  predicate Stale(c: Copy, now: real) {
    match c.message.ttl
    case Seconds(s) => c.at + s <= now
    case _ => false
  }

  function Keep(copies: seq<Copy>, now: real, stale: bool): seq<Copy> {
    if copies == [] then []
    else (if Stale(copies[0], now) == stale then [copies[0]] else []) + Keep(copies[1..], now, stale)
  }

  function Stamp(copies: seq<Copy>, now: real): (r: seq<Exit>)
    ensures |r| == |copies| && forall i :: 0 <= i < |r| ==> r[i] == Exit(copies[i], now)
  {
    seq(|copies|, i requires 0 <= i < |copies| => Exit(copies[i], now))
  }

  function Age(l: Ledger, now: real): Ledger {
    l.(pending := Keep(l.pending, now, false), expired := l.expired + Stamp(Keep(l.pending, now, true), now))
  }

  function Post(l: Ledger, m: Message, at: real): Ledger {
    l.(published := l.published + 1, pending := l.pending + [Copy(l.published, m, at)])
  }

  function Take(l: Ledger, now: real): Ledger {
    if l.pending == [] then l
    else l.(pending := l.pending[1..], delivered := l.delivered + [Exit(l.pending[0], now)])
  }

  /** A publish goes to its queue, or to each subscription of its topic. */
  predicate Reaches(db: Db, kind: string, name: string, key: Key) {
    && key.kind == kind && key.entity == name
    && if kind == "queues" then key.consumer == "" else (name, key.consumer) in db.subscriptions
  }

  /** An operation that succeeds ages every queue; it also posts to or takes from the queues it names. */
  function Enter(l: Ledger, db: Db, op: Op, key: Key): Ledger {
    match (op, Step(db, op).1)
    case (Publish(kind, name, m, now, later), Accepted(_)) =>
      var aged := Age(l, now);
      if Reaches(db, kind, name, key) then Post(aged, m, later) else aged
    case (Consume(kind, name, consumer, now), Delivered(_)) =>
      var aged := Age(l, now);
      if key == Key(kind, name, consumer) then Take(aged, now) else aged
    case (Consume(kind, name, consumer, now), Nothing) => Age(l, now)
    case _ => l
  }

  function LedgerOf(ops: seq<Op>, key: Key): Ledger {
    if ops == [] then Ledger(0, [], [], [])
    else
      var n := |ops| - 1;
      Enter(LedgerOf(ops[..n], key), Run(ops[..n]), ops[n], key)
  }

  // ----- The table holds the pending copies -----

  /** A copy as the table holds it. */
  function ItemOf(c: Copy): Item {
    Item(match c.message.ttl case Seconds(s) => Some(c.at + s) case _ => None, c.message)
  }

  function Items(copies: seq<Copy>): (r: seq<Item>)
    ensures |r| == |copies| && forall i :: 0 <= i < |r| ==> r[i] == ItemOf(copies[i])
  {
    seq(|copies|, i requires 0 <= i < |copies| => ItemOf(copies[i]))
  }

  lemma {:induction false} ItemsFresh(copies: seq<Copy>, now: real)
    ensures Items(Keep(copies, now, false)) == Fresh(Items(copies), now)
  {
    if copies != [] {
      ItemsFresh(copies[1..], now);
      assert Items(copies)[1..] == Items(copies[1..]);
      var kept := Keep(copies[1..], now, false);
      assert Items([copies[0]] + kept) == [ItemOf(copies[0])] + Items(kept);
    }
  }

  lemma {:induction false} OccursOnce(subscriptions: seq<(string, string)>, kind: string, topic: string, key: Key)
    requires forall i, j :: 0 <= i < j < |subscriptions| ==> subscriptions[i] != subscriptions[j]
    ensures var keys := Subscribers(subscriptions, kind, topic);
            && Occurrences(keys, key) == (if key in keys then 1 else 0)
            && (key in keys <==> key.kind == kind && key.entity == topic && (topic, key.consumer) in subscriptions)
  {
    if subscriptions != [] {
      OccursOnce(subscriptions[1..], kind, topic, key);
      var s := subscriptions[0];
      assert s !in subscriptions[1..] by {
        assert forall i :: 0 <= i < |subscriptions[1..]| ==> subscriptions[1..][i] == subscriptions[i + 1];
      }
      var rest := Subscribers(subscriptions[1..], kind, topic);
      if s.0 == topic {
        assert ([Key(kind, topic, s.1)] + rest)[1..] == rest;
      } else {
        assert [] + rest == rest;
      }
    }
  }

  lemma {:induction false} TargetsOnce(db: Db, kind: string, name: string, key: Key)
    requires Inv(db)
    ensures var targets := Targets(db, kind, name);
            && Occurrences(targets, key) == (if key in targets then 1 else 0)
            && (key in targets <==> Reaches(db, kind, name, key))
  {
    if kind == "queues" {
      assert [Key(kind, name, "")][1..] == [];
    } else {
      OccursOnce(db.subscriptions, kind, name, key);
    }
  }

  /** One operation moves the table and the ledger together. */
  lemma {:induction false} EnterKeepsStep(l: Ledger, db: Db, op: Op, key: Key)
    requires Inv(db) && Items(l.pending) == Queue(db.rows, key)
    ensures Items(Enter(l, db, op, key).pending) == Queue(Step(db, op).0.rows, key)
  {
    hide Inv, Targets, InsertAll, DeleteId, Oldest, Purge, Queue, Keep, Occurrences;
    match op
    case Create(_, _, _) =>
    case Publish(kind, name, m, now, later) =>
      QueuePurge(db.rows, now, key);
      ItemsFresh(l.pending, now);
      TargetsOnce(db, kind, name, key);
      QueueInsert(Purge(db.rows, now), Targets(db, kind, name), Expiry(m, later), m, key);
      CopiesOnce(Item(Expiry(m, later), m));
      var aged, c := Age(l, now).pending, Copy(l.published, m, later);
      assert ItemOf(c) == Item(Expiry(m, later), m);
      assert Items(aged + [c]) == Items(aged) + [ItemOf(c)];
    case Consume(kind, name, consumer, now) =>
      QueuePurge(db.rows, now, key);
      ItemsFresh(l.pending, now);
      var rows := Purge(db.rows, now);
      assert ById(rows) by { InvById(db); PurgeById(db.rows, now); }
      var row := Oldest(rows, Key(kind, name, consumer));
      if row.Some? {
        QueueDelete(rows, row.value, key);
        var aged := Age(l, now).pending;
        assert key == row.value.key ==> Items(aged[1..]) == Items(aged)[1..];
      }
  }

  lemma {:induction false} InvById(db: Db)
    requires Inv(db)
    ensures ById(db.rows)
  {
  }

  lemma {:induction false} CopiesOnce(item: Item)
    ensures Copies(item, 0) == [] && Copies(item, 1) == [item]
  {
  }

  /** After every run the rows of a consumer are its pending copies, oldest first. */
  lemma {:induction false} TableIsPending(ops: seq<Op>, key: Key)
    ensures Items(LedgerOf(ops, key).pending) == Queue(Run(ops).rows, key)
  {
    if ops != [] {
      var n := |ops| - 1;
      TableIsPending(ops[..n], key);
      RunKeepsInv(ops[..n]);
      EnterKeepsStep(LedgerOf(ops[..n], key), Run(ops[..n]), ops[n], key);
    } else {
      assert Items([]) == [];
    }
  }

  /**
   A consume that succeeds delivers the oldest copy that has not expired, and finds nothing
   exactly when there is none.
   */
  lemma {:induction false} ConsumeTakesOldest(ops: seq<Op>, kind: string, name: string, consumer: string, now: real)
    ensures var op := Consume(kind, name, consumer, now);
            var due := Keep(LedgerOf(ops, Key(kind, name, consumer)).pending, now, false);
            match Step(Run(ops), op).1
            case Delivered(m) => due != [] && m == due[0].message
            case Nothing => due == []
            case Failed(e) => e == Missing && Step(Run(ops), op).0 == Run(ops)
            case _ => false
  {
    var db, key := Run(ops), Key(kind, name, consumer);
    TableIsPending(ops, key);
    RunKeepsInv(ops);
    QueuePurge(db.rows, now, key);
    ItemsFresh(LedgerOf(ops, key).pending, now);
    PurgeById(db.rows, now);
    OldestIsHead(Purge(db.rows, now), key);
  }

  /** A publish reaches exactly the queue, or the subscriptions there are, once each; or changes nothing. */
  lemma {:induction false} PublishFansOut(ops: seq<Op>, kind: string, name: string, m: Message, now: real, later: real, key: Key)
    ensures var op := Publish(kind, name, m, now, later);
            var l, l' := LedgerOf(ops, key), LedgerOf(ops + [op], key);
            match Step(Run(ops), op).1
            case Accepted(_) =>
              l' == if Reaches(Run(ops), kind, name, key) then Post(Age(l, now), m, later) else Age(l, now)
            case Failed(_) => l' == l && Run(ops + [op]) == Run(ops)
            case _ => false
  {
    var op := Publish(kind, name, m, now, later);
    assert (ops + [op])[..|ops|] == ops;
    RunKeepsInv(ops);
    TargetsOnce(Run(ops), kind, name, key);
  }

  // ----- Which operations succeed -----

  /** Rows that have not expired. */
  function Unexpired(rows: seq<Row>, now: real): nat {
    if rows == [] then 0
    else Unexpired(rows[1..], now) + if rows[0].expires.None? || now < rows[0].expires.value then 1 else 0
  }

  lemma {:induction false} PurgeCounts(rows: seq<Row>, now: real)
    ensures |Purge(rows, now)| == Unexpired(rows, now)
  {
    if rows != [] {
      PurgeCounts(rows[1..], now);
    }
  }

  function SubscriptionsOf(subscriptions: seq<(string, string)>, topic: string): nat {
    if subscriptions == [] then 0
    else SubscriptionsOf(subscriptions[1..], topic) + if subscriptions[0].0 == topic then 1 else 0
  }

  lemma {:induction false} SubscribersCount(subscriptions: seq<(string, string)>, kind: string, topic: string)
    ensures |Subscribers(subscriptions, kind, topic)| == SubscriptionsOf(subscriptions, topic)
  {
    if subscriptions != [] {
      SubscribersCount(subscriptions[1..], kind, topic);
    }
  }

  /**
   A publish is refused for a bad name or message, for a queue or topic that does not exist,
   and when its copies do not fit under ten thousand rows that have not expired; otherwise it
   says how many copies it made.
   */
  lemma {:induction false} PublishDecides(db: Db, kind: string, name: string, m: Message, now: real, later: real)
    ensures var reply := Step(db, Publish(kind, name, m, now, later)).1;
            var bad := !IsName(name) || m.payload.None? || m.ttl.BadTtl? || (m.ttl.Seconds? && m.ttl.seconds <= 0.0);
            var copies := if kind == "queues" then 1 else SubscriptionsOf(db.subscriptions, name);
            && (reply == Failed(Invalid) <==> bad)
            && (reply == Failed(Missing) <==> !bad && (kind, name) !in db.entities)
            && (reply == Failed(Full) <==> !bad && (kind, name) in db.entities && Unexpired(db.rows, now) + copies > 10000)
            && (!reply.Failed? ==> reply == Accepted(copies))
  {
    PurgeCounts(db.rows, now);
    SubscribersCount(db.subscriptions, kind, name);
  }

  /** A create is refused for a bad name, and for a subscription to a topic that does not exist. */
  lemma {:induction false} CreateDecides(db: Db, kind: string, name: string, subscription: Option<string>)
    ensures var reply := Step(db, Create(kind, name, subscription)).1;
            var bad := !IsName(name) || (subscription.Some? && !IsName(subscription.value));
            reply == if bad then Failed(Invalid)
                     else if subscription.Some? && ("topics", name) !in db.entities then Failed(Missing)
                     else Created
  {
  }

  /** A consume fails exactly when the queue or topic, or the subscription to the topic, does not exist. */
  lemma {:induction false} ConsumeDecides(db: Db, kind: string, name: string, consumer: string, now: real)
    ensures var reply := Step(db, Consume(kind, name, consumer, now)).1;
            reply.Failed? <==> (kind, name) !in db.entities || (kind == "topics" && (name, consumer) !in db.subscriptions)
  {
  }

  ghost predicate CreatesEntity(ops: seq<Op>, i: nat, kind: string, name: string) {
    i < |ops| && ops[i] == Create(kind, name, None) && IsName(name)
  }

  ghost predicate CreatesSubscription(ops: seq<Op>, i: nat, topic: string, name: string) {
    && i < |ops| && ops[i].Create? && ops[i].name == topic && ops[i].subscription == Some(name)
    && IsName(topic) && IsName(name) && exists j: nat :: j < i && CreatesEntity(ops, j, "topics", topic)
  }

  /** After every run exactly the queues, topics and subscriptions exist that were created, a subscription after its topic. */
  lemma {:induction false} ExistsWhenCreated(ops: seq<Op>, kind: string, name: string, consumer: string)
    ensures (kind, name) in Run(ops).entities <==> exists i: nat :: CreatesEntity(ops, i, kind, name)
    ensures (name, consumer) in Run(ops).subscriptions <==> exists i: nat :: CreatesSubscription(ops, i, name, consumer)
  {
    if ops != [] {
      var n := |ops| - 1;
      var before := ops[..n];
      ExistsWhenCreated(before, kind, name, consumer);
      ExistsWhenCreated(before, "topics", name, consumer);
      CreatedBefore(ops, kind, name, consumer);
      CreatedBefore(ops, "topics", name, consumer);
    }
  }

  /** What a run created, its prefix created, or its last operation does. */
  lemma {:induction false} CreatedBefore(ops: seq<Op>, kind: string, name: string, consumer: string)
    requires ops != []
    ensures var n := |ops| - 1;
            && ((exists i: nat :: CreatesEntity(ops, i, kind, name))
                <==> (exists i: nat :: CreatesEntity(ops[..n], i, kind, name)) || CreatesEntity(ops, n, kind, name))
            && ((exists i: nat :: CreatesSubscription(ops, i, name, consumer))
                <==> (exists i: nat :: CreatesSubscription(ops[..n], i, name, consumer)) || CreatesSubscription(ops, n, name, consumer))
            && (CreatesSubscription(ops, n, name, consumer) <==>
                  && ops[n].Create? && ops[n].name == name && ops[n].subscription == Some(consumer) && IsName(name) && IsName(consumer)
                  && exists j: nat :: CreatesEntity(ops[..n], j, "topics", name))
  {
    hide IsName;
    var n := |ops| - 1;
    forall i: nat, k, t | i < n ensures CreatesEntity(ops, i, k, t) <==> CreatesEntity(ops[..n], i, k, t) {
    }
    forall i: nat | i < n ensures CreatesSubscription(ops, i, name, consumer) <==> CreatesSubscription(ops[..n], i, name, consumer) {
    }
  }

  /** Names start with a letter or digit and go on with those, dots, underscores and hyphens, two hundred characters at most. */
  lemma {:induction false} NameExamples()
    ensures IsName("A") && IsName("z") && IsName("a") && IsName("Z9") && IsName("0.b_c-D") && IsName(seq(200, _ => 'x'))
    ensures !IsName("") && !IsName(".a") && !IsName("_a") && !IsName("-a") && !IsName("a b") && !IsName("a/b") && !IsName("a~") && !IsName("{") && !IsName("@") && !IsName(seq(201, _ => 'x'))
  {
    assert "a b"[1] == ' ' && "a/b"[1] == '/' && "a~"[1] == '~';
  }

  // ----- No copy is lost, duplicated, reordered or late -----

  function Serials(copies: seq<Copy>): (r: seq<nat>)
    ensures |r| == |copies| && forall i :: 0 <= i < |r| ==> r[i] == copies[i].serial
  {
    seq(|copies|, i requires 0 <= i < |copies| => copies[i].serial)
  }

  function Sent(exits: seq<Exit>): (r: seq<Copy>)
    ensures |r| == |exits| && forall i :: 0 <= i < |r| ==> r[i] == exits[i].copy
  {
    seq(|exits|, i requires 0 <= i < |exits| => exits[i].copy)
  }

  function UpTo(n: nat): seq<nat> {
    if n == 0 then [] else UpTo(n - 1) + [n - 1]
  }

  /** Each published copy is exactly one of delivered, expired and pending. */
  ghost predicate Conserved(l: Ledger) {
    multiset(Serials(Sent(l.delivered))) + multiset(Serials(Sent(l.expired))) + multiset(Serials(l.pending))
      == multiset(UpTo(l.published))
  }

  ghost predicate Increasing(copies: seq<Copy>) {
    forall i, j :: 0 <= i < j < |copies| ==> copies[i].serial < copies[j].serial
  }

  /** The copies delivered so far and then those pending come in publish order. */
  ghost predicate InOrder(l: Ledger) {
    && Increasing(Sent(l.delivered) + l.pending)
    && (forall c :: c in Sent(l.delivered) + l.pending ==> c.serial < l.published)
  }

  /** A copy is delivered only before its time to live has run out, and dropped only after; one without is never dropped. */
  ghost predicate Timely(l: Ledger) {
    && (forall d :: d in l.delivered && d.copy.message.ttl.Seconds? ==> d.at < d.copy.at + d.copy.message.ttl.seconds)
    && (forall e :: e in l.expired ==> e.copy.message.ttl.Seconds? && e.copy.at + e.copy.message.ttl.seconds <= e.at)
  }

  lemma {:induction false} KeepSplits(copies: seq<Copy>, now: real)
    ensures multiset(Serials(Keep(copies, now, false))) + multiset(Serials(Keep(copies, now, true)))
         == multiset(Serials(copies))
  {
    if copies != [] {
      hide Serials;
      var c, rest := copies[0], copies[1..];
      var stale := Stale(c, now);
      KeepSplits(rest, now);
      HeadTail(copies);
      SerialsCons(c, rest);
      SerialsCons(c, Keep(rest, now, stale));
      assert Keep(copies, now, stale) == [c] + Keep(rest, now, stale);
      assert Keep(copies, now, !stale) == Keep(rest, now, !stale);
    }
  }

  lemma {:induction false} SerialsCons(c: Copy, copies: seq<Copy>)
    ensures Serials([c] + copies) == [c.serial] + Serials(copies)
  {
  }

  lemma {:induction false} SerialsAppend(a: seq<Copy>, b: seq<Copy>)
    ensures Serials(a + b) == Serials(a) + Serials(b)
  {
  }

  lemma {:induction false} KeepOrdered(before: seq<Copy>, copies: seq<Copy>, now: real)
    requires Increasing(before + copies)
    ensures Increasing(before + Keep(copies, now, false))
    decreases |copies|
  {
    if copies == [] {
      assert before + Keep(copies, now, false) == before + copies;
    } else {
      var c, tail := copies[0], copies[1..];
      HeadTail(copies);
      if Stale(c, now) {
        DropOne(before, c, tail);
        KeepOrdered(before, tail, now);
        assert Keep(copies, now, false) == Keep(tail, now, false);
      } else {
        MoveFirst(before, c, tail);
        KeepOrdered(before + [c], tail, now);
        MoveFirst(before, c, Keep(tail, now, false));
      }
    }
  }

  lemma {:induction false} MoveFirst(a: seq<Copy>, c: Copy, b: seq<Copy>)
    ensures a + ([c] + b) == (a + [c]) + b
    ensures ([c] + b)[1..] == b
  {
  }

  lemma {:induction false} DropOne(a: seq<Copy>, c: Copy, b: seq<Copy>)
    requires Increasing(a + ([c] + b))
    ensures Increasing(a + b)
  {
    var all := a + ([c] + b);
    assert forall i :: |a| <= i < |a + b| ==> (a + b)[i] == all[i + 1];
    assert forall i :: 0 <= i < |a| ==> (a + b)[i] == all[i];
  }

  lemma {:induction false} KeepMembers(copies: seq<Copy>, now: real, stale: bool)
    ensures forall c :: c in Keep(copies, now, stale) ==> c in copies && Stale(c, now) == stale
  {
    if copies != [] {
      KeepMembers(copies[1..], now, stale);
    }
  }

  lemma {:induction false} SentStamp(exits: seq<Exit>, copies: seq<Copy>, now: real)
    ensures Sent(exits + Stamp(copies, now)) == Sent(exits) + copies
  {
  }

  lemma {:induction false} AgeKeeps(l: Ledger, now: real)
    requires Conserved(l) && InOrder(l) && Timely(l)
    ensures Conserved(Age(l, now)) && InOrder(Age(l, now)) && Timely(Age(l, now))
    ensures forall c :: c in Age(l, now).pending ==> !Stale(c, now)
  {
    KeepMembers(l.pending, now, false);
    AgeConserves(l, now);
    KeepOrdered(Sent(l.delivered), l.pending, now);
    hide Conserved, Increasing, Keep;
    AgeTimely(l, now);
  }

  lemma {:induction false} AgeConserves(l: Ledger, now: real)
    requires Conserved(l)
    ensures Conserved(Age(l, now))
  {
    hide Serials, Sent, Stamp;
    var dropped := Keep(l.pending, now, true);
    KeepSplits(l.pending, now);
    SentStamp(l.expired, dropped, now);
    SerialsAppend(Sent(l.expired), dropped);
  }

  lemma {:induction false} AgeTimely(l: Ledger, now: real)
    requires Timely(l)
    ensures Timely(Age(l, now))
  {
    var dropped := Keep(l.pending, now, true);
    KeepMembers(l.pending, now, true);
    hide Keep;
    forall e | e in Age(l, now).expired
      ensures e.copy.message.ttl.Seconds? && e.copy.at + e.copy.message.ttl.seconds <= e.at {
      if e !in l.expired {
        assert e in Stamp(dropped, now);
        assert e.copy in dropped && Stale(e.copy, now);
      }
    }
  }

  lemma {:induction false} PostKeeps(l: Ledger, m: Message, at: real)
    requires Conserved(l) && InOrder(l) && Timely(l)
    ensures Conserved(Post(l, m, at)) && InOrder(Post(l, m, at)) && Timely(Post(l, m, at))
  {
    hide Conserved, InOrder;
    PostConserves(l, m, at);
    PostInOrder(l, m, at);
  }

  lemma {:induction false} PostConserves(l: Ledger, m: Message, at: real)
    requires Conserved(l)
    ensures Conserved(Post(l, m, at))
  {
    var c := Copy(l.published, m, at);
    SerialsNext(l.pending, c);
    hide Sent, Serials;
    assert UpTo(l.published + 1) == UpTo(l.published) + [l.published];
    var gone := multiset(Serials(Sent(l.delivered))) + multiset(Serials(Sent(l.expired)));
    assert gone + multiset(Serials(l.pending) + [c.serial]) == gone + multiset(Serials(l.pending)) + multiset{c.serial};
  }

  lemma {:induction false} SerialsNext(copies: seq<Copy>, c: Copy)
    ensures Serials(copies + [c]) == Serials(copies) + [c.serial]
  {
  }

  lemma {:induction false} PostInOrder(l: Ledger, m: Message, at: real)
    requires InOrder(l)
    ensures InOrder(Post(l, m, at))
  {
    hide Increasing;
    AppendNewest(Sent(l.delivered), l.pending, Copy(l.published, m, at));
  }

  lemma {:induction false} AppendNewest(a: seq<Copy>, b: seq<Copy>, c: Copy)
    requires Increasing(a + b) && forall x :: x in a + b ==> x.serial < c.serial
    ensures Increasing(a + (b + [c]))
    ensures forall x :: x in a + (b + [c]) ==> x in a + b || x == c
  {
    var all := a + b;
    assert forall i :: 0 <= i < |all| ==> all[i] in all;
    assert a + (b + [c]) == all + [c];
  }

  lemma {:induction false} TakeKeeps(l: Ledger, now: real)
    requires Conserved(l) && InOrder(l) && Timely(l)
    requires forall c :: c in l.pending ==> !Stale(c, now)
    ensures Conserved(Take(l, now)) && InOrder(Take(l, now)) && Timely(Take(l, now))
  {
    hide Conserved, InOrder;
    TakeConserves(l, now);
    TakeInOrder(l, now);
    assert l.pending != [] ==> !Stale(l.pending[0], now);
  }

  lemma {:induction false} SentNext(exits: seq<Exit>, e: Exit)
    ensures Sent(exits + [e]) == Sent(exits) + [e.copy]
  {
  }

  lemma {:induction false} TakeConserves(l: Ledger, now: real)
    requires Conserved(l)
    ensures Conserved(Take(l, now))
  {
    if l.pending != [] {
      hide Sent, Serials;
      var c, rest := l.pending[0], l.pending[1..];
      HeadTail(l.pending);
      SerialsCons(c, rest);
      SentNext(l.delivered, Exit(c, now));
      SerialsAppend(Sent(l.delivered), [c]);
      assert Serials([c]) == [c.serial];
    }
  }

  lemma {:induction false} TakeInOrder(l: Ledger, now: real)
    requires InOrder(l)
    ensures InOrder(Take(l, now))
  {
    if l.pending != [] {
      hide Increasing, Sent;
      var c, rest := l.pending[0], l.pending[1..];
      HeadTail(l.pending);
      SentNext(l.delivered, Exit(c, now));
      MoveFirst(Sent(l.delivered), c, rest);
    }
  }

  /**
   Over every run, for every consumer: published = delivered + expired + pending, copy by
   copy; each copy is delivered at most once and in publish order. A copy sent at `at` with a
   time to live of `s` seconds is delivered only before `at + s` and dropped only from then
   on; a copy without one is never dropped.
   */
  lemma {:induction false} LedgerSound(ops: seq<Op>, key: Key)
    ensures var l := LedgerOf(ops, key);
            Conserved(l) && InOrder(l) && Timely(l) && l.published == |l.delivered| + |l.expired| + |l.pending|
  {
    hide Conserved, InOrder, Timely, Step, Age, Post, Take;
    if ops != [] {
      var n := |ops| - 1;
      LedgerSound(ops[..n], key);
      var l, op := LedgerOf(ops[..n], key), ops[n];
      if !op.Create? {
        AgeKeeps(l, op.now);
        if op.Publish? {
          PostKeeps(Age(l, op.now), op.message, op.later);
        } else {
          TakeKeeps(Age(l, op.now), op.now);
        }
      }
    } else {
      EmptyLedger();
    }
    Total(LedgerOf(ops, key));
  }

  lemma {:induction false} EmptyLedger()
    ensures var l := Ledger(0, [], [], []); Conserved(l) && InOrder(l) && Timely(l)
  {
  }

  lemma {:induction false} UpToLength(n: nat)
    ensures |UpTo(n)| == n
  {
    if n > 0 {
      UpToLength(n - 1);
    }
  }

  lemma {:induction false} Total(l: Ledger)
    requires Conserved(l)
    ensures l.published == |l.delivered| + |l.expired| + |l.pending|
  {
    UpToLength(l.published);
    assert |multiset(Serials(Sent(l.delivered))) + multiset(Serials(Sent(l.expired))) + multiset(Serials(l.pending))|
        == |l.delivered| + |l.expired| + |l.pending|;
  }
}
