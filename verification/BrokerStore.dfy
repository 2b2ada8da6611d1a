/** The broker's database tables, updated in place inside transactions. */
module BrokerStore {
  import opened Common
  import opened Broker

  class Store {
    var entities: set<(string, string)>
    var subscriptions: seq<(string, string)>
    var rows: seq<Row>

    function View(): Db
      reads this
    {
      Db(entities, subscriptions, rows)
    }

    constructor ()
      ensures View() == EMPTY
    {
      entities, subscriptions, rows := {}, [], [];
    }

    /** `create` */
    method Create(kind: string, name: string, subscription: Option<string>) returns (r: Reply)
      modifies this
      ensures (View(), r) == DoCreate(old(View()), kind, name, subscription)
    {
      if !IsName(name) {
        return Failed(Invalid);
      }
      if subscription.None? {
        entities := entities + {(kind, name)};
      } else {
        if !IsName(subscription.value) {
          return Failed(Invalid);
        }
        if ("topics", name) !in entities {
          return Failed(Missing);
        }
        if (name, subscription.value) !in subscriptions {
          subscriptions := subscriptions + [(name, subscription.value)];
        }
      }
      return Created;
    }

    /** `publish`; the transaction rolls the purge back when the broker is full. */
    method Publish(kind: string, name: string, m: Message, now: real, later: real) returns (r: Reply)
      modifies this
      ensures (View(), r) == DoPublish(old(View()), kind, name, m, now, later)
    {
      if !IsName(name) || !m.Valid() {
        return Failed(Invalid);
      }
      if (kind, name) !in entities {
        return Failed(Missing);
      }
      var saved := rows;
      rows := Purge(rows, now);
      var targets := Targets(View(), kind, name);
      if |rows| + |targets| > LIMIT {
        rows := saved;
        return Failed(Full);
      }
      var expiry := Expiry(m, later);
      ghost var final := InsertAll(rows, targets, expiry, m);
      for i := 0 to |targets|
        invariant InsertAll(rows, targets[i..], expiry, m) == final
        invariant entities == old(entities) && subscriptions == old(subscriptions)
      {
        assert targets[i..][1..] == targets[i + 1..];
        rows := rows + [Row(NewId(rows), targets[i], expiry, m)];
      }
      return Accepted(|targets|);
    }

    /** `consume` */
    method Consume(kind: string, name: string, consumer: string, now: real) returns (r: Reply)
      modifies this
      ensures (View(), r) == DoConsume(old(View()), kind, name, consumer, now)
    {
      if (kind, name) !in entities || (kind == "topics" && (name, consumer) !in subscriptions) {
        return Failed(Missing);
      }
      rows := Purge(rows, now);
      var row := Oldest(rows, Key(kind, name, consumer));
      if row.None? {
        return Nothing;
      }
      rows := DeleteId(rows, row.value.id);
      return Delivered(row.value.message);
    }
  }
}
