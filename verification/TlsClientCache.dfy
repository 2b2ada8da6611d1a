/** The TLS client cache of the gateway process, updated in place. */
module TlsClientCache {
  import opened Common
  import opened TlsClientPool

  class Cache {
    var clients: seq<Client>
    var slots: map<string, Key>
    var retired: set<Client>
    var closed: set<Client>
    var created: nat
    const limit: nat

    function View(): Pool
      reads this
    {
      Pool(clients, slots, retired, closed, created, limit)
    }

    /** The source refuses a limit below one. */
    constructor (max: nat)
      requires max >= 1
      ensures Inv(View()) && clients == [] && limit == max && created == 0
    {
      clients, slots, retired, closed, created, limit := [], map[], {}, {}, 0, max;
      new;
      assert Everyone(View()) == {};
    }

    /** `_retire` */
    method RetireClient(c: Client)
      modifies this
      ensures View() == Retire(old(View()), c)
    {
      clients := Without(clients, c.key);
      slots := map s | s in slots && slots[s] != c.key :: slots[s];
      retired := retired + {c};
    }

    /** `_trim_idle_cache` */
    method TrimCache()
      requires Matched(View()) && Accounted(View()) && limit >= 1
      modifies this
      ensures View() == Trim(old(View()))
    {
      hide Accounted;
      while |clients| > limit
        invariant Matched(View()) && Accounted(View())
        invariant Trim(View()) == Trim(old(View()))
        decreases |clients|
      {
        RetireKeeps(View(), clients[0]);
        RetireClient(clients[0]);
      }
    }

    /** `client_for` */
    method ClientFor(r: Request) returns (out: Outcome)
      requires Inv(View())
      modifies this
      ensures (View(), out) == TlsClientPool.ClientFor(old(View()), r) && Inv(View())
    {
      hide Matched, Accounted, Trim, Without;
      ClientForSound(View(), r);
      var s := r.settings;
      var demanded := s.certificateAuth && !s.simulated;
      if (s.certificate || s.clientFile || demanded) && !s.https {
        return Refused;
      }
      if !(s.caFile || s.crlFile || s.clientFile || s.certificate || !s.verifiesChain || !s.verifiesName) {
        return if demanded then Refused else Fallback;
      }
      if !r.found {
        return Refused;
      }
      var found := Find(clients, r.key);
      if found.None? {
        PreviousKeeps(View(), r.key.slot);
        if r.key.slot in slots {
          var previous := Find(clients, slots[r.key.slot]);
          if previous.Some? {
            RetireClient(previous.value);
          }
        }
        assert View() == RetirePrevious(old(View()), r.key.slot);
        if !r.loads {
          return Refused;
        }
        AddKeeps(View(), r.key);
        found := Some(Client(created, r.key));
        clients, slots, created := clients + [Client(created, r.key)], slots[r.key.slot := r.key], created + 1;
        TrimCache();
      }
      clients := Without(clients, r.key) + [found.value];
      return Use(found.value);
    }

    /** `_close_retired`, when the client has become idle */
    method CloseIdle(c: Client)
      modifies this
      ensures View() == CloseRetired(old(View()), c)
    {
      if c in retired {
        retired, closed := retired - {c}, closed + {c};
      }
    }

    /** `aclose` */
    method Close()
      modifies this
      ensures View() == CloseAll(old(View())) && clients == [] && retired == {}
      ensures old(Accounted(View())) ==> Numbered(closed, created)
    {
      ghost var all := Everyone(View());
      closed := closed + (set c | c in clients) + retired;
      assert closed == all;
      clients, slots, retired := [], map[], {};
    }
  }
}
