/** The TLS client cache over whole runs: its accounting, and the order of last use. */
module TlsClientRuns {
  import opened TlsClientPool

  datatype Op = Ask(request: Request) | Idle(client: Client) | Shutdown

  function Step(p: Pool, op: Op): Pool {
    match op
    case Ask(r) => ClientFor(p, r).0
    case Idle(c) => CloseRetired(p, c)
    case Shutdown => CloseAll(p)
  }

  function Run(ops: seq<Op>, limit: nat): Pool {
    if ops == [] then Pool([], map[], {}, {}, 0, limit)
    else Step(Run(ops[..|ops| - 1], limit), ops[|ops| - 1])
  }

  lemma {:induction false} CloseKeeps(p: Pool, op: Op)
    requires Inv(p) && !op.Ask?
    ensures Inv(Step(p, op))
  {
    hide Numbered;
    var q := Step(p, op);
    assert Everyone(q) == Everyone(p);
  }

  /** A retired client that has become idle is closed, and nothing else changes; a client in use is left alone. */
  lemma {:induction false} IdleCloses(p: Pool, c: Client)
    requires Inv(p)
    ensures var q := Step(p, Idle(c));
            && (c in p.retired ==> c in q.closed && c !in q.retired)
            && (c !in p.retired ==> q == p)
            && q.clients == p.clients && q.slots == p.slots && q.created == p.created
            && forall d :: d != c ==> (d in q.retired <==> d in p.retired) && (d in q.closed <==> d in p.closed)
  {
  }

  /** After a shutdown exactly the clients that were ever built are closed, and none is left. */
  lemma {:induction false} ShutdownClosesAll(p: Pool)
    requires Inv(p)
    ensures var q := Step(p, Shutdown);
            q.clients == [] && q.retired == {} && Numbered(q.closed, p.created)
  {
    hide Numbered;
    assert Step(p, Shutdown).closed == Everyone(p);
  }

  /**
   After every run: live keys and slots are in bijection, at most `limit` clients are live,
   and every client ever built is exactly one of live, retired and closed.
   */
  lemma {:induction false} RunKeepsInv(ops: seq<Op>, limit: nat)
    requires limit >= 1
    ensures Inv(Run(ops, limit)) && Run(ops, limit).limit == limit
  {
    if ops == [] {
      assert Everyone(Run(ops, limit)) == {};
    } else {
      hide Inv, ClientFor;
      var n := |ops| - 1;
      RunKeepsInv(ops[..n], limit);
      var p := Run(ops[..n], limit);
      if ops[n].Ask? {
        ClientForSound(p, ops[n].request);
        LimitStays(p, ops[n].request);
      } else {
        CloseKeeps(p, ops[n]);
      }
    }
  }

  lemma {:induction false} LimitStays(p: Pool, r: Request)
    ensures ClientFor(p, r).0.limit == p.limit
  {
    var q := RetirePrevious(p, r.key.slot);
    TrimLimit(Add(q, r.key));
  }

  lemma {:induction false} TrimLimit(p: Pool)
    ensures Trim(p).limit == p.limit
    decreases |p.clients|
  {
    if |p.clients| > p.limit && |Without(p.clients, p.clients[0].key)| < |p.clients| {
      TrimLimit(Retire(p, p.clients[0]));
    }
  }

  // ----- Recency -----

  /** The number of the last operation that returned the client; -1 if none did. */
  function LastUse(ops: seq<Op>, limit: nat, c: Client): (r: int)
    ensures -1 <= r < |ops|
  {
    if ops == [] then -1
    else
      var n := |ops| - 1;
      if ops[n].Ask? && ClientFor(Run(ops[..n], limit), ops[n].request).1 == Use(c) then n
      else LastUse(ops[..n], limit, c)
  }

  ghost predicate OrderedBy(clients: seq<Client>, rank: Client -> int) {
    forall i, j :: 0 <= i < j < |clients| ==> rank(clients[i]) < rank(clients[j])
  }

  lemma {:induction false} OrderedTail(clients: seq<Client>, rank: Client -> int)
    requires OrderedBy(clients, rank) && clients != []
    ensures OrderedBy(clients[1..], rank) && forall d :: d in clients[1..] ==> rank(clients[0]) < rank(d)
  {
    assert forall i :: 0 <= i < |clients[1..]| ==> clients[1..][i] == clients[i + 1];
  }

  lemma {:induction false} OrderedCons(c: Client, keep: bool, rest: seq<Client>, rank: Client -> int)
    requires OrderedBy(rest, rank) && forall d :: d in rest ==> rank(c) < rank(d)
    ensures OrderedBy((if keep then [c] else []) + rest, rank)
  {
    assert forall i :: 0 <= i < |rest| ==> rest[i] in rest;
    assert [] + rest == rest;
  }

  lemma {:induction false} WithoutOrdered(clients: seq<Client>, key: Key, rank: Client -> int)
    requires OrderedBy(clients, rank)
    ensures OrderedBy(Without(clients, key), rank)
  {
    if clients != [] {
      hide OrderedBy;
      OrderedTail(clients, rank);
      WithoutOrdered(clients[1..], key, rank);
      OrderedCons(clients[0], clients[0].key != key, Without(clients[1..], key), rank);
    }
  }

  /** A client used now comes after others that keep their rank. */
  lemma {:induction false} UsedLast(clients: seq<Client>, c: Client, rank: Client -> int, rank': Client -> int, now: int)
    requires OrderedBy(clients, rank) && c !in clients && rank'(c) == now
    requires forall d :: d != c ==> rank'(d) == rank(d) && rank(d) < now
    ensures OrderedBy(clients + [c], rank')
  {
    assert forall i :: 0 <= i < |clients| ==> clients[i] in clients;
  }

  lemma {:induction false} SameOrder(clients: seq<Client>, rank: Client -> int, rank': Client -> int)
    requires OrderedBy(clients, rank) && forall d :: d in clients ==> rank'(d) == rank(d)
    ensures OrderedBy(clients, rank')
  {
    assert forall i :: 0 <= i < |clients| ==> clients[i] in clients;
  }

  /** One `client_for` keeps the order, when the client it returns gets the newest rank. */
  lemma {:induction false} AskOrdered(p: Pool, r: Request, rank: Client -> int, rank': Client -> int, now: int)
    requires Inv(p) && OrderedBy(p.clients, rank)
    requires forall d :: rank'(d) == if ClientFor(p, r).1 == Use(d) then now else rank(d)
    requires forall d :: rank(d) < now
    ensures OrderedBy(ClientFor(p, r).0.clients, rank')
  {
    var (q, out) := ClientFor(p, r);
    if !r.Asks() {
      SameOrder(p.clients, rank, rank');
    } else if Find(p.clients, r.key).Some? {
      hide Inv;
      WithoutOrdered(p.clients, r.key, rank);
      hide OrderedBy, ClientFor;
      UsedLast(Without(p.clients, r.key), out.client, rank, rank', now);
    } else {
      var kept := RetirePrevious(p, r.key.slot).clients;
      KeptOrdered(p, r.key.slot, rank);
      if r.loads {
        ClientForMiss(p, r);
        hide Inv, RetirePrevious, ClientFor;
        var most := if |kept| == p.limit then kept[1..] else kept;
        assert OrderedBy(most, rank);
        assert out.client !in most by { KeptAreOld(p, r.key); }
        UsedLast(most, out.client, rank, rank', now);
      } else {
        SameOrder(kept, rank, rank');
      }
    }
  }

  lemma {:induction false} KeptOrdered(p: Pool, slot: string, rank: Client -> int)
    requires OrderedBy(p.clients, rank)
    ensures OrderedBy(RetirePrevious(p, slot).clients, rank)
  {
    if slot in p.slots && Find(p.clients, p.slots[slot]).Some? {
      WithoutOrdered(p.clients, p.slots[slot], rank);
    }
  }

  lemma {:induction false} KeptAreOld(p: Pool, key: Key)
    requires Find(p.clients, key).None?
    ensures forall c :: c in RetirePrevious(p, key.slot).clients ==> c.key != key
  {
  }

  /** After every run the live clients stand in order of their last use. */
  lemma {:induction false} RecencyOrder(ops: seq<Op>, limit: nat)
    requires limit >= 1
    ensures OrderedBy(Run(ops, limit).clients, c => LastUse(ops, limit, c))
  {
    if ops != [] {
      var n := |ops| - 1;
      RecencyOrder(ops[..n], limit);
      var p, op := Run(ops[..n], limit), ops[n];
      if op.Ask? {
        RunKeepsInv(ops[..n], limit);
        var rank, rank' := c => LastUse(ops[..n], limit, c), c => LastUse(ops, limit, c);
        assert forall d :: rank'(d) == if ClientFor(p, op.request).1 == Use(d) then n else rank(d);
        AskOrdered(p, op.request, rank, rank', n);
      } else {
        SameOrder(Run(ops, limit).clients, c => LastUse(ops[..n], limit, c), c => LastUse(ops, limit, c));
      }
    }
  }

  /** When a new client does not fit, the client that leaves for it is the least recently used. */
  lemma {:induction false} EvictsLeastRecent(ops: seq<Op>, limit: nat, r: Request)
    requires limit >= 1 && r.Asks() && r.loads
    requires var p := Run(ops, limit);
             Find(p.clients, r.key).None? && |RetirePrevious(p, r.key.slot).clients| == limit
    ensures var p := Run(ops, limit);
            var (q, _) := ClientFor(p, r);
            var first := p.clients[0];
            && first in q.retired
            && forall c :: c in p.clients && c != first ==> c in q.clients && LastUse(ops, limit, first) < LastUse(ops, limit, c)
  {
    hide Inv, Run, LastUse, ClientFor, RetirePrevious, Find, Live;
    var p := Run(ops, limit);
    RunKeepsInv(ops, limit);
    InvDistinct(p);
    RecencyOrder(ops, limit);
    FullKeepsAll(p, r.key.slot);
    ClientForMiss(p, r);
    var q := ClientFor(p, r).0;
    var first, c' := p.clients[0], Client(p.created, r.key);
    assert q.clients == p.clients[1..] + [c'];
    forall c | c in p.clients && c != first
      ensures c in q.clients && LastUse(ops, limit, first) < LastUse(ops, limit, c) {
      var i :| 0 <= i < |p.clients| && p.clients[i] == c;
      assert p.clients[1..][i - 1] == c;
    }
    InvNew(p, r.key);
    FirstLeaves(p.clients, c');
    LiveIs(p, first);
    LiveIs(q, first);
  }

  lemma {:induction false} InvDistinct(p: Pool)
    requires Inv(p)
    ensures Distinct(p.clients)
  {
  }

  lemma {:induction false} LiveIs(p: Pool, c: Client)
    ensures c in Live(p) <==> c in p.clients
  {
  }

  /** The next client to be built is not there yet. */
  lemma {:induction false} InvNew(p: Pool, key: Key)
    requires Inv(p)
    ensures Client(p.created, key) !in p.clients
  {
    BelowMembers(p.created);
    forall c | c in p.clients ensures c.id < p.created {
      assert c in Everyone(p);
      assert c.id in Below(p.created);
    }
  }

  lemma {:induction false} FirstLeaves(clients: seq<Client>, c: Client)
    requires Distinct(clients) && clients != [] && clients[0] != c
    ensures clients[0] !in clients[1..] + [c]
  {
  }

  /** If dropping the slot's client leaves the cache full, the slot had none. */
  lemma {:induction false} FullKeepsAll(p: Pool, slot: string)
    requires Inv(p) && |RetirePrevious(p, slot).clients| == p.limit
    ensures RetirePrevious(p, slot) == p
  {
    if slot in p.slots {
      RetireKeeps(p, Find(p.clients, p.slots[slot]).value);
    }
  }
}
