/** The table of NAT sessions. Which entries have expired, and which are dropped to make room, is up to
    the underlying table, which calls the eviction callback for each. */
module UdpNat {
  import opened NatSession

  /** The answer of the prepare function for a new source. */
  datatype Prepare = Prepare(success: bool, withHandler: bool)

  class Nat {
    var cache: map<nat, NatConn>
    /** Every session ever created. */
    ghost var sessions: set<NatConn>

    /** The sessions of the table are distinct, and every session outside it is closed. */
    ghost predicate Valid()
      reads this, sessions
    {
      && (forall k <- cache :: cache[k] in sessions && cache[k].source == k)
      && (forall c <- sessions :: c.Valid())
      && (forall c <- sessions :: c.closed || (c.source in cache && cache[c.source] == c))
    }

    constructor ()
      ensures Valid() && cache == map[] && sessions == {}
    {
      cache, sessions := map[], {};
    }

    /** Removes one entry; the eviction callback closes its session. */
    method EvictOne(k: nat)
      requires Valid() && k in cache
      modifies this`cache, cache[k]
      ensures Valid() && cache == old(cache) - {k} && sessions == old(sessions)
      ensures old(cache[k]).closed && old(cache[k]).Abs() == old(cache[k].Abs())
    {
      cache[k].Close();
      cache := cache - {k};
    }

    /** Removes entries. The sessions that stay in the table are not touched, and none loses a packet. */
    method Evict(keys: set<nat>)
      requires Valid()
      modifies this`cache, sessions
      ensures Valid() && cache == old(cache) - keys && sessions == old(sessions)
      ensures forall k <- cache :: unchanged(cache[k])
      ensures forall c <- sessions :: c.Abs() == old(c.Abs())
      decreases |keys|
    {
      if keys == {} {
        return;
      }
      var k :| k in keys;
      if k in cache {
        EvictOne(k);
      }
      Evict(keys - {k});
      assert cache == old(cache) - keys;
    }

    /** A packet from `source`. `expired` are the entries that have timed out by now, `evicted` those
        dropped when a session is added. Returns the session, and whether there was none in the table:
        a closed session that is replaced does not count as new. */
    method NewPacket(source: nat, prepare: Prepare, expired: set<nat>, evicted: set<nat>)
        returns (conn: NatConn?, isNew: bool)
      requires Valid() && source !in evicted
      modifies this, sessions
      ensures Valid()
      // no usable session, and none is made
      ensures conn == null <==> !old(Usable(source, expired)) && !prepare.success
      ensures conn == null ==> !isNew && cache == old(cache) - expired
      // the session in use gets the packet
      ensures old(Usable(source, expired)) ==>
                && conn == old(cache)[source] && !isNew && cache == old(cache) - expired
                && conn.Abs() == Apply(old(cache[source].Abs()), Packet) && !conn.closed
      // a new session gets it
      ensures conn != null && !old(Usable(source, expired)) ==>
                && fresh(conn) && cache == (old(cache) - expired - evicted)[source := conn]
                && conn.source == source && !conn.closed && conn.Abs() == Apply(New(prepare.withHandler), Packet)
                && (isNew <==> source !in old(cache) - expired)
    {
      conn, isNew := Obtain(source, prepare, expired, evicted);
      if conn != null {
        conn.Dispatch();
      }
    }

    /** The session for a packet: the one in the table, or one that is prepared and added. */
    method Obtain(source: nat, prepare: Prepare, expired: set<nat>, evicted: set<nat>)
        returns (conn: NatConn?, isNew: bool)
      requires Valid() && source !in evicted
      modifies this, sessions
      ensures Valid()
      ensures conn == null <==> !old(Usable(source, expired)) && !prepare.success
      ensures conn == null ==> !isNew && cache == old(cache) - expired
      ensures conn != null ==> conn in sessions && !conn.closed && conn.source == source
      ensures old(Usable(source, expired)) ==>
                conn == old(cache)[source] && !isNew && cache == old(cache) - expired &&
                  conn.Abs() == old(cache[source].Abs())
      ensures conn != null && !old(Usable(source, expired)) ==>
                && fresh(conn) && cache == (old(cache) - expired - evicted)[source := conn]
                && conn.Abs() == New(prepare.withHandler) && (isNew <==> source !in old(cache) - expired)
    {
      Evict(expired);
      var exist := source in cache;
      if exist && !cache[source].closed {
        return cache[source], false;
      }
      if !prepare.success {
        return null, false;
      }
      conn := new NatConn(source, prepare.withHandler);
      Add(source, conn, evicted);
      isNew := !exist;
    }

    ghost predicate Usable(source: nat, expired: set<nat>)
      reads this, cache.Values
    {
      source in cache && source !in expired && !cache[source].closed
    }

    /** Enters a new session under its source; it replaces only a closed one. */
    method Add(source: nat, conn: NatConn, evicted: set<nat>)
      requires Valid() && source !in evicted && (source in cache ==> cache[source].closed)
      requires conn !in sessions && conn.source == source && conn.Valid()
      modifies this, sessions
      ensures Valid() && sessions == old(sessions) + {conn} && cache == (old(cache) - evicted)[source := conn]
      ensures unchanged(conn)
    {
      Evict(evicted);
      cache := cache[source := conn];
      sessions := sessions + {conn};
    }

    method CloseOne(k: nat)
      requires Valid() && k in cache
      modifies cache[k]
      ensures Valid() && cache[k].closed
      ensures forall c <- sessions :: c.Abs() == old(c.Abs()) && (old(c.closed) ==> c.closed)
    {
      if !cache[k].closed {
        cache[k].Close();
      }
    }

    /** Closes every session of the table, and with that every session. */
    method Close()
      requires Valid()
      modifies sessions
      ensures Valid() && cache == old(cache) && sessions == old(sessions)
      ensures forall c <- sessions :: c.closed && c.onCloseCalls == 1 && c.Abs() == old(c.Abs())
    {
      var todo := cache.Keys;
      while todo != {}
        invariant Valid() && cache == old(cache) && sessions == old(sessions)
        invariant todo <= cache.Keys
        invariant forall k <- cache :: k !in todo ==> cache[k].closed
        invariant forall c <- sessions :: c.Abs() == old(c.Abs())
        decreases |todo|
      {
        var k :| k in todo;
        CloseOne(k);
        todo := todo - {k};
      }
    }
  }
}
