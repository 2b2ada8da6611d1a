/**
 The cache of TLS clients: one live client per connection slot, replaced when the
 credentials of the slot change, evicted in least-recently-used order, and closed once
 retired and idle.

 A cache key is the hash of slot and credential digest; hashes are taken as collision-free.
 */
module TlsClientPool {
  import opened Common

  datatype Key = Key(slot: string, digest: string)

  /** A client and the slot and credentials it was built for. */
  datatype Client = Client(id: nat, key: Key)

  /** `clients` is in order of insertion; `created` counts all clients ever built. */
  datatype Pool = Pool(
    clients: seq<Client>, slots: map<string, Key>, retired: set<Client>, closed: set<Client>, created: nat, limit: nat)

  /** The TLS settings of a backend, each as far as the cache looks at it. */
  datatype Settings = Settings(
    caFile: bool, crlFile: bool, clientFile: bool, certificate: bool, verifiesChain: bool, verifiesName: bool,
    certificateAuth: bool, simulated: bool, https: bool)

  /** What a backend asks for, and whether its certificate is found and its credentials load. */
  datatype Request = Request(key: Key, settings: Settings, found: bool, loads: bool) {
    /** A client certificate is presented only over HTTPS, and one that must be real is configured. */
    predicate Acceptable() {
      && (settings.certificate || settings.clientFile || (settings.certificateAuth && !settings.simulated) ==> settings.https)
      && (!Configured() && settings.certificateAuth ==> settings.simulated)
    }

    predicate Configured() {
      || settings.caFile || settings.crlFile || settings.clientFile || settings.certificate
      || !settings.verifiesChain || !settings.verifiesName
    }

    /** The request gets as far as looking for a client. */
    predicate Asks() {
      Acceptable() && Configured() && found
    }
  }

  datatype Outcome = Refused | Fallback | Use(client: Client)

  function Find(clients: seq<Client>, key: Key): (r: Option<Client>)
    ensures r.Some? ==> r.value in clients && r.value.key == key
    ensures r.None? ==> forall c :: c in clients ==> c.key != key
  {
    if clients == [] then None
    else if clients[0].key == key then Some(clients[0])
    else Find(clients[1..], key)
  }

  function Without(clients: seq<Client>, key: Key): (r: seq<Client>)
    ensures forall c :: c in r <==> c in clients && c.key != key
  {
    if clients == [] then []
    else (if clients[0].key == key then [] else [clients[0]]) + Without(clients[1..], key)
  }

  /** `_retire` */
  function Retire(p: Pool, c: Client): Pool {
    p.(clients := Without(p.clients, c.key),
       slots := map s | s in p.slots && p.slots[s] != c.key :: p.slots[s],
       retired := p.retired + {c})
  }

  /** `_trim_idle_cache` */
  function Trim(p: Pool): Pool
    decreases |p.clients|
  {
    if |p.clients| > p.limit && |Without(p.clients, p.clients[0].key)| < |p.clients|
    then Trim(Retire(p, p.clients[0])) else p
  }

  function RetirePrevious(p: Pool, slot: string): Pool {
    if slot !in p.slots then p
    else match Find(p.clients, p.slots[slot]) case Some(c) => Retire(p, c) case None => p
  }

  function Add(p: Pool, key: Key): Pool {
    p.(clients := p.clients + [Client(p.created, key)], slots := p.slots[key.slot := key], created := p.created + 1)
  }

  function MoveToEnd(p: Pool, c: Client): Pool {
    p.(clients := Without(p.clients, c.key) + [c])
  }

  /** `client_for`; credentials that do not load are noticed after the old client is retired. */
  function ClientFor(p: Pool, r: Request): (Pool, Outcome) {
    if !r.Acceptable() then (p, Refused)
    else if !r.Configured() then (p, Fallback)
    else if !r.found then (p, Refused)
    else
      match Find(p.clients, r.key)
      case Some(c) => (MoveToEnd(p, c), Use(c))
      case None =>
        var q := RetirePrevious(p, r.key.slot);
        if !r.loads then (q, Refused)
        else
          var c := Client(q.created, r.key);
          (MoveToEnd(Trim(Add(q, r.key)), c), Use(c))
  }

  /** `_close_retired`: a retired client has become idle and is closed. */
  function CloseRetired(p: Pool, c: Client): Pool {
    if c in p.retired then p.(retired := p.retired - {c}, closed := p.closed + {c}) else p
  }

  /** `aclose` */
  function CloseAll(p: Pool): Pool {
    p.(clients := [], slots := map[], retired := {}, closed := p.closed + Live(p) + p.retired)
  }

  function Live(p: Pool): set<Client> {
    set c | c in p.clients
  }

  // ----- What every operation keeps -----

  ghost predicate Distinct(clients: seq<Client>) {
    forall i, j :: 0 <= i < j < |clients| ==> clients[i].key.slot != clients[j].key.slot
  }

  /** Slots and live keys are in bijection. */
  ghost predicate Matched(p: Pool) {
    && Distinct(p.clients)
    && (forall c :: c in p.clients ==> c.key.slot in p.slots && p.slots[c.key.slot] == c.key)
    && (forall s :: s in p.slots ==> p.slots[s].slot == s && exists c :: c in p.clients && c.key == p.slots[s])
  }

  /** Every client ever built is exactly one of live, retired and closed. */
  ghost predicate Accounted(p: Pool) {
    && Live(p) !! p.retired && Live(p) !! p.closed && p.retired !! p.closed
    && Numbered(Everyone(p), p.created)
  }

  ghost function Below(n: nat): set<nat> {
    if n == 0 then {} else Below(n - 1) + {n - 1}
  }

  lemma {:induction false} BelowMembers(n: nat)
    ensures forall i :: i in Below(n) <==> 0 <= i < n
  {
    if n > 0 {
      BelowMembers(n - 1);
    }
  }

  /** The ids of the clients are `0..n`, one each. */
  ghost predicate Numbered(clients: set<Client>, n: nat) {
    && (set c | c in clients :: c.id) == Below(n)
    && forall c, d :: c in clients && d in clients && c.id == d.id ==> c == d
  }

  ghost function Everyone(p: Pool): set<Client> {
    Live(p) + p.retired + p.closed
  }

  ghost predicate Inv(p: Pool) {
    Matched(p) && Accounted(p) && |p.clients| <= p.limit && p.limit >= 1
  }

  // ----- Removing a client from the order -----

  lemma {:induction false} WithoutAppend(a: seq<Client>, b: seq<Client>, key: Key)
    ensures Without(a + b, key) == Without(a, key) + Without(b, key)
  {
    if a == [] {
      assert a + b == b;
    } else {
      assert (a + b)[0] == a[0] && (a + b)[1..] == a[1..] + b;
      WithoutAppend(a[1..], b, key);
      Regroup(if a[0].key == key then [] else [a[0]], Without(a[1..], key), Without(b, key));
    }
  }

  /** The clients in front of and behind one of them have other keys. */
  lemma {:induction false} OthersDiffer(clients: seq<Client>, i: nat)
    requires Distinct(clients) && i < |clients|
    ensures forall c :: c in clients[..i] || c in clients[i + 1..] ==> c.key != clients[i].key
  {
  }

  lemma {:induction false} WithoutAt(clients: seq<Client>, i: nat)
    requires Distinct(clients) && i < |clients|
    ensures Without(clients, clients[i].key) == clients[..i] + clients[i + 1..]
  {
    hide Distinct, Without;
    var front, c, back := clients[..i], clients[i], clients[i + 1..];
    OthersDiffer(clients, i);
    WithoutNone(front, c.key);
    WithoutNone(back, c.key);
    WithoutAppend([c], back, c.key);
    WithoutAppend(front, [c] + back, c.key);
    assert clients == front + ([c] + back);
    WithoutItself(c);
  }

  lemma {:induction false} WithoutItself(c: Client)
    ensures Without([c], c.key) == []
  {
    assert [c][1..] == [];
  }

  lemma {:induction false} WithoutOne(clients: seq<Client>, c: Client)
    requires Distinct(clients) && c in clients
    ensures Distinct(Without(clients, c.key)) && |Without(clients, c.key)| == |clients| - 1
    ensures clients[0] == c ==> Without(clients, c.key) == clients[1..]
  {
    hide Without;
    var i :| 0 <= i < |clients| && clients[i] == c;
    i := if clients[0] == c then 0 else i;
    WithoutAt(clients, i);
    assert i == 0 ==> clients[..i] + clients[i + 1..] == clients[1..];
  }

  lemma {:induction false} WithoutNone(clients: seq<Client>, key: Key)
    requires forall c :: c in clients ==> c.key != key
    ensures Without(clients, key) == clients
  {
    if clients != [] {
      WithoutNone(clients[1..], key);
    }
  }

  lemma {:induction false} SameKeySameClient(clients: seq<Client>, c: Client, d: Client)
    requires Distinct(clients) && c in clients && d in clients && c.key.slot == d.key.slot
    ensures c == d
  {
    var i :| 0 <= i < |clients| && clients[i] == c;
    var j :| 0 <= j < |clients| && clients[j] == d;
  }

  /** Taking a client out leaves the others, in order. */
  lemma {:induction false} Removed(clients: seq<Client>, c: Client)
    requires Distinct(clients) && c in clients
    ensures var w := Without(clients, c.key);
            && Distinct(w) && |w| == |clients| - 1
            && (forall d :: d in w <==> d in clients && d != c)
            && (forall d :: d in w ==> d.key.slot != c.key.slot)
  {
    WithoutOne(clients, c);
    hide Distinct, Without;
    forall d | d in clients && d.key.slot == c.key.slot ensures d == c {
      SameKeySameClient(clients, c, d);
    }
  }

  lemma {:induction false} RetireMatched(p: Pool, c: Client)
    requires Matched(p) && c in p.clients
    ensures var q := Retire(p, c);
            && Matched(q) && |q.clients| == |p.clients| - 1 && c.key.slot !in q.slots
            && Live(q) == Live(p) - {c}
  {
    hide Distinct, Without;
    Removed(p.clients, c);
    var q := Retire(p, c);
    forall s | s in q.slots ensures exists d :: d in q.clients && d.key == q.slots[s] {
      var d :| d in p.clients && d.key == p.slots[s];
      assert d in q.clients;
    }
  }

  lemma {:induction false} RetireKeeps(p: Pool, c: Client)
    requires Matched(p) && Accounted(p) && c in p.clients
    ensures var q := Retire(p, c);
            && Matched(q) && Accounted(q) && |q.clients| == |p.clients| - 1
            && Live(q) == Live(p) - {c} && c.key.slot !in q.slots
  {
    hide Matched, Numbered, Without;
    RetireMatched(p, c);
    assert Everyone(Retire(p, c)) == Everyone(p);
  }

  lemma {:induction false} PreviousKeeps(p: Pool, slot: string)
    requires Inv(p)
    ensures var q := RetirePrevious(p, slot);
            && Matched(q) && Accounted(q) && slot !in q.slots && |q.clients| <= |p.clients|
            && q.limit == p.limit && q.created == p.created
  {
    if slot in p.slots {
      hide Accounted, Distinct;
      var c := Find(p.clients, p.slots[slot]).value;
      RetireKeeps(p, c);
    }
  }

  lemma {:induction false} AddKeeps(p: Pool, key: Key)
    requires Matched(p) && Accounted(p) && key.slot !in p.slots
    ensures var q := Add(p, key);
            Matched(q) && Accounted(q) && Live(q) == Live(p) + {Client(p.created, key)}
  {
    AddMatched(p, key);
    AddAccounted(p, key);
  }

  lemma {:induction false} AddMatched(p: Pool, key: Key)
    requires Matched(p) && key.slot !in p.slots
    ensures Matched(Add(p, key)) && Live(Add(p, key)) == Live(p) + {Client(p.created, key)}
  {
    var q, c := Add(p, key), Client(p.created, key);
    assert forall i :: 0 <= i < |p.clients| ==> p.clients[i] in p.clients;
    assert forall d :: d in q.clients <==> d in p.clients || d == c;
    forall s | s in q.slots ensures exists d :: d in q.clients && d.key == q.slots[s] {
      if s == key.slot {
        assert c in q.clients;
      } else {
        var d :| d in p.clients && d.key == p.slots[s];
        assert d in q.clients;
      }
    }
  }

  lemma {:induction false} NumberedAdd(clients: set<Client>, n: nat, c: Client)
    requires Numbered(clients, n) && c.id == n
    ensures Numbered(clients + {c}, n + 1) && c !in clients
  {
    BelowMembers(n);
    var ids := set d | d in clients :: d.id;
    assert forall d :: d in clients ==> d.id in ids;
    assert (set d | d in clients + {c} :: d.id) == ids + {n};
  }

  lemma {:induction false} AddAccounted(p: Pool, key: Key)
    requires Accounted(p)
    ensures Accounted(Add(p, key))
  {
    hide Numbered;
    var q, c := Add(p, key), Client(p.created, key);
    NumberedAdd(Everyone(p), p.created, c);
    assert Live(q) == Live(p) + {c};
    assert Everyone(q) == Everyone(p) + {c};
  }

  /** With at most one client too many, trimming retires just the oldest. */
  lemma {:induction false} TrimKeeps(p: Pool)
    requires Matched(p) && Accounted(p) && |p.clients| <= p.limit + 1 && p.limit >= 1
    ensures var q := Trim(p);
            && Inv(q)
            && if |p.clients| <= p.limit then q == p
               else q == Retire(p, p.clients[0]) && q.clients == p.clients[1..]
  {
    if |p.clients| > p.limit {
      WithoutOne(p.clients, p.clients[0]);
      RetireKeeps(p, p.clients[0]);
    }
  }

  lemma {:induction false} MoveKeeps(p: Pool, c: Client)
    requires Inv(p) && c in p.clients
    ensures Inv(MoveToEnd(p, c)) && Live(MoveToEnd(p, c)) == Live(p)
  {
    hide Distinct, Without, Numbered;
    Removed(p.clients, c);
    DistinctAppend(Without(p.clients, c.key), c);
    var q := MoveToEnd(p, c);
    assert forall d :: d in q.clients <==> d in p.clients;
    assert Live(q) == Live(p);
    assert Matched(q) by {
      forall s | s in q.slots ensures exists d :: d in q.clients && d.key == q.slots[s] {
        var d :| d in p.clients && d.key == p.slots[s];
        assert d in q.clients;
      }
    }
  }

  lemma {:induction false} DistinctAppend(clients: seq<Client>, c: Client)
    requires Distinct(clients) && forall d :: d in clients ==> d.key.slot != c.key.slot
    ensures Distinct(clients + [c])
  {
    assert forall i :: 0 <= i < |clients| ==> clients[i] in clients;
  }

  // ----- client_for -----

  /**
   The shared fallback is returned exactly when no TLS setting is made and no real client
   certificate is demanded. A request is refused exactly when a client certificate would go
   over plain HTTP, a real one is demanded and not configured, the certificate is not found,
   or a new client is needed and its credentials do not load; only the last changes the cache.
   */
  lemma {:induction false} ClientForAnswers(p: Pool, r: Request)
    ensures var (q, out) := ClientFor(p, r);
            var s := r.settings;
            var demanded := s.certificateAuth && !s.simulated;
            var plain := !s.caFile && !s.crlFile && !s.clientFile && !s.certificate && s.verifiesChain && s.verifiesName;
            var fails := (!s.https && (s.certificate || s.clientFile || demanded)) || (plain && demanded) || (!plain && !r.found);
            && (out == Fallback <==> plain && !demanded)
            && (out == Refused <==> fails || (!plain && !r.loads && forall c :: c in p.clients ==> c.key != r.key))
            && (out == Fallback || fails ==> q == p)
  {
    hide Trim, Add, RetirePrevious, MoveToEnd;
    assert Find(p.clients, r.key).Some? <==> exists c :: c in p.clients && c.key == r.key;
  }

  /** The invariant and the meaning of the answer. */
  lemma {:induction false} ClientForSound(p: Pool, r: Request)
    requires Inv(p)
    ensures var (q, out) := ClientFor(p, r);
            && Inv(q)
            && (out.Use? ==> out.client.key == r.key && q.clients != [] && q.clients[|q.clients| - 1] == out.client)
  {
    hide Matched, Accounted, Without, Trim;
    if r.Asks() {
      match Find(p.clients, r.key) {
        case Some(c) => MoveKeeps(p, c);
        case None =>
          PreviousKeeps(p, r.key.slot);
          var q := RetirePrevious(p, r.key.slot);
          if r.loads {
            AddKeeps(q, r.key);
            var a := Add(q, r.key);
            TrimKeeps(a);
            var c := Client(q.created, r.key);
            assert c in Trim(a).clients;
            MoveKeeps(Trim(a), c);
          }
      }
    }
  }

  lemma {:induction false} FindAt(clients: seq<Client>, i: nat)
    requires Distinct(clients) && i < |clients|
    ensures Find(clients, clients[i].key) == Some(clients[i])
  {
    assert clients[i] in clients;
    var c := Find(clients, clients[i].key).value;
    SameKeySameClient(clients, c, clients[i]);
  }

  /**
   Asking for the slot and credentials of a live client, wherever it stands, returns that
   client and moves it behind the others, which keep their order. Nothing is built, retired
   or closed, and every slot keeps its client.
   */
  lemma {:induction false} ClientForHit(p: Pool, r: Request, i: nat)
    requires Inv(p) && r.Asks() && i < |p.clients| && p.clients[i].key == r.key
    ensures var (q, out) := ClientFor(p, r);
            && out == Use(p.clients[i])
            && q.clients == p.clients[..i] + p.clients[i + 1..] + [p.clients[i]]
            && Inv(q) && Live(q) == Live(p) && q.slots == p.slots
            && q.retired == p.retired && q.closed == p.closed && q.created == p.created && q.limit == p.limit
  {
    hide Without, Find, Accounted, Distinct;
    MatchedDistinct(p);
    FindAt(p.clients, i);
    WithoutAt(p.clients, i);
    MoveKeeps(p, p.clients[i]);
  }

  /** Retiring what a slot had takes out exactly the clients of that slot, and keeps the order of the others. */
  lemma {:induction false} PreviousLeaves(p: Pool, slot: string)
    requires Inv(p)
    ensures var kept := RetirePrevious(p, slot).clients;
            && (forall c :: c in kept <==> c in p.clients && c.key.slot != slot)
            && (kept == p.clients || exists i :: 0 <= i < |p.clients| && kept == p.clients[..i] + p.clients[i + 1..])
  {
    hide Accounted, Without;
    if slot in p.slots {
      var c := Find(p.clients, p.slots[slot]).value;
      var i :| 0 <= i < |p.clients| && p.clients[i] == c;
      MatchedDistinct(p);
      WithoutAt(p.clients, i);
      Removed(p.clients, c);
      assert forall d :: d in p.clients && d.key.slot == slot ==> d == c by {
        forall d | d in p.clients && d.key.slot == slot ensures d == c { SameKeySameClient(p.clients, c, d); }
      }
    }
  }

  /** When the credentials of a new client do not load, the slot has lost its old client and nothing is built. */
  lemma {:induction false} LoadFailureRetires(p: Pool, r: Request)
    requires Inv(p) && r.Asks() && !r.loads && Find(p.clients, r.key).None?
    ensures var (q, out) := ClientFor(p, r);
            && out == Refused && Inv(q) && q.created == p.created
            && (forall c :: c in q.clients <==> c in p.clients && c.key.slot != r.key.slot)
            && q.retired == p.retired + (Live(p) - Live(q))
  {
    hide Trim, Without;
    ClientForSound(p, r);
    PreviousLeaves(p, r.key.slot);
    RetiredExactly(p, r.key.slot, RetirePrevious(p, r.key.slot));
  }

  /**
   Otherwise the slot's old client leaves, then the first in line if the cache is still
   full, and a new client is put at the end; those that left are retired.
   */
  lemma {:induction false} ClientForMiss(p: Pool, r: Request)
    requires Inv(p) && r.Asks() && r.loads && Find(p.clients, r.key).None?
    ensures var (q, out) := ClientFor(p, r);
            var kept := RetirePrevious(p, r.key.slot).clients;
            var c := Client(p.created, r.key);
            && out == Use(c) && q.created == p.created + 1
            && q.clients == (if |kept| == p.limit then kept[1..] else kept) + [c]
            && q.retired == p.retired + (Live(p) - Live(q))
  {
    var c := Client(p.created, r.key);
    assert c !in Live(p);
    var k := RetirePrevious(p, r.key.slot);
    PreviousKeeps(p, r.key.slot);
    RetiredExactly(p, r.key.slot, k);
    var q := MoveToEnd(Trim(Add(k, r.key)), c);
    assert ClientFor(p, r) == (q, Use(c));
    hide *;
    MissOrder(k, r.key);
    LeftInTwoSteps(Live(p), Live(k), Live(q), c);
    RegroupSets(p.retired, Live(p) - Live(k), Live(k) - Live(q));
  }

  lemma {:induction false} RegroupSets(a: set<Client>, b: set<Client>, c: set<Client>)
    ensures (a + b) + c == a + (b + c)
  {
  }

  lemma {:induction false} LeftInTwoSteps(a: set<Client>, b: set<Client>, d: set<Client>, c: Client)
    requires b <= a && d <= b + {c} && c !in a
    ensures (a - b) + (b - d) == a - d
  {
  }

  /** Building a client when its slot is free. */
  lemma {:induction false} MissOrder(k: Pool, key: Key)
    requires Matched(k) && Accounted(k) && key.slot !in k.slots && |k.clients| <= k.limit && k.limit >= 1
    ensures var c := Client(k.created, key);
            var q := MoveToEnd(Trim(Add(k, key)), c);
            && q.clients == (if |k.clients| == k.limit then k.clients[1..] else k.clients) + [c]
            && q.created == k.created + 1
            && q.retired == k.retired + (Live(k) - Live(q)) && Live(q) <= Live(k) + {c} && c !in Live(k)
  {
    hide Matched, Accounted, Without, Trim, Distinct, Add, Live;
    var c := Client(k.created, key);
    AddTrimmed(k, key);
    var t := Trim(Add(k, key));
    assert Distinct(t.clients) by { MatchedDistinct(t); }
    LastMoves(t.clients, c);
    assert t.clients[|t.clients| - 1] == c;
    assert MoveToEnd(t, c) == t;
  }

  lemma {:induction false} AddTrimmed(k: Pool, key: Key)
    requires Matched(k) && Accounted(k) && key.slot !in k.slots && |k.clients| <= k.limit && k.limit >= 1
    ensures var c, t := Client(k.created, key), Trim(Add(k, key));
            && t.clients == (if |k.clients| == k.limit then k.clients[1..] else k.clients) + [c]
            && Matched(t) && t.created == k.created + 1
            && t.retired == k.retired + (Live(k) - Live(t)) && Live(t) <= Live(k) + {c} && c !in Live(k)
  {
    hide Matched, Accounted, Without, Trim;
    var c := Client(k.created, key);
    var a := Add(k, key);
    AddKeeps(k, key);
    AddNew(k, key);
    TrimKeeps(a);
    if |a.clients| > a.limit {
      var first := k.clients[0];
      assert a.clients[0] == first;
      assert (k.clients + [c])[1..] == k.clients[1..] + [c];
      RetireKeeps(a, first);
    }
  }

  lemma {:induction false} MatchedDistinct(p: Pool)
    requires Matched(p)
    ensures Distinct(p.clients)
  {
  }

  lemma {:induction false} AddNew(k: Pool, key: Key)
    requires Matched(k) && key.slot !in k.slots
    ensures Client(k.created, key) !in Live(k)
  {
  }

  lemma {:induction false} RetiredExactly(p: Pool, slot: string, q: Pool)
    requires Inv(p) && q == RetirePrevious(p, slot)
    ensures q.retired == p.retired + (Live(p) - Live(q)) && Live(q) <= Live(p) && q.created == p.created && q.limit == p.limit
  {
    if slot in p.slots {
      RetireKeeps(p, Find(p.clients, p.slots[slot]).value);
    }
  }

  lemma {:induction false} LastMoves(clients: seq<Client>, c: Client)
    requires Distinct(clients) && clients != [] && clients[|clients| - 1] == c
    ensures Without(clients, c.key) + [c] == clients
  {
    if |clients| > 1 {
      assert clients[1..][|clients[1..]| - 1] == c;
      LastMoves(clients[1..], c);
      assert clients[0].key != c.key;
    }
  }
}
