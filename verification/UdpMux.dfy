/** The UDP mux: connections by user fragment and address family, and the index from remote addresses to connections. */
module UdpMuxes {
  import opened Bits

  datatype IpPort = IpPort(addr: seq<byte>, zone: string, port: uint16)

  function Without(s: seq<IpPort>, a: IpPort): (r: seq<IpPort>)
    ensures forall x :: x in r <==> x in s && x != a
  {
    if s == [] then []
    else
      var r := Without(s[..|s| - 1], a);
      if s[|s| - 1] != a then r + [s[|s| - 1]] else r
  }

  /** The address list and the closed state of a muxed connection. */
  class MuxedConn {
    var addresses: seq<IpPort>
    var closed: bool
    const key: string

    constructor (key: string)
      ensures addresses == [] && !closed && this.key == key
    {
      addresses, closed, this.key := [], false, key;
    }

    method ContainsAddress(a: IpPort) returns (found: bool)
      ensures found <==> a in addresses
    {
      for i := 0 to |addresses|
        invariant a !in addresses[..i]
      {
        if a == addresses[i] {
          return true;
        }
        assert addresses[..i + 1] == addresses[..i] + [addresses[i]];
      }
      assert addresses[..|addresses|] == addresses;
      return false;
    }

    method RemoveAddress(a: IpPort)
      modifies this`addresses
      ensures addresses == Without(old(addresses), a)
    {
      var kept := [];
      assert addresses[..|addresses|] == addresses;
      for i := 0 to |addresses|
        invariant kept == Without(addresses[..i], a)
        invariant addresses == old(addresses)
      {
        assert addresses[..i + 1][..i] == addresses[..i];
        if addresses[i] != a {
          kept := kept + [addresses[i]];
        }
      }
      addresses := kept;
    }

    method Close()
      modifies this`closed
      ensures closed
    {
      closed := true;
    }
  }

  class UDPMux {
    var connsIPv4: map<string, MuxedConn>
    var connsIPv6: map<string, MuxedConn>
    var addressMap: map<IpPort, MuxedConn>
    var closed: bool
    ghost var created: set<MuxedConn>

    ghost predicate Tabled(c: MuxedConn)
      reads this
    {
      (exists u :: u in connsIPv4 && connsIPv4[u] == c) || (exists u :: u in connsIPv6 && connsIPv6[u] == c)
    }

    /** An indexed address is listed by its connection, and an address listed by a connection in the tables is indexed to
        it. */
    ghost predicate Agrees()
      reads this, created
    {
      && (forall a :: a in addressMap ==> addressMap[a] in created && a in addressMap[a].addresses)
      && (forall c :: c in created && Tabled(c) ==> forall a :: a in c.addresses ==> a in addressMap && addressMap[a] == c)
    }

    ghost predicate Valid()
      reads this, created
    {
      && Agrees()
      && (forall u :: u in connsIPv4 ==> connsIPv4[u] in created && connsIPv4[u].key == u)
      && (forall u :: u in connsIPv6 ==> connsIPv6[u] in created && connsIPv6[u].key == u)
      && (closed ==> connsIPv4 == map[] && connsIPv6 == map[])
    }

    constructor ()
      ensures Valid() && addressMap == map[] && !closed && created == {}
    {
      connsIPv4, connsIPv6, addressMap, closed, created := map[], map[], map[], false, {};
    }

    /** The connection for a user fragment, made on first use; none once the mux is closed. */
    method GetConn(ufrag: string, isIPv6: bool) returns (c: MuxedConn?)
      requires Valid()
      modifies this
      ensures Valid() && addressMap == old(addressMap) && closed == old(closed)
      ensures c == null <==> old(closed)
      ensures old(closed) ==> connsIPv4 == old(connsIPv4) && connsIPv6 == old(connsIPv6)
      ensures !old(closed) ==> c in created && (fresh(c) || created == old(created))
      ensures !old(closed) && isIPv6 ==> connsIPv4 == old(connsIPv4) && connsIPv6 == old(connsIPv6)[ufrag := c]
      ensures !old(closed) && !isIPv6 ==> connsIPv6 == old(connsIPv6) && connsIPv4 == old(connsIPv4)[ufrag := c]
      ensures !old(closed) && ufrag in (if isIPv6 then old(connsIPv6) else old(connsIPv4)) ==>
                created == old(created) && c == (if isIPv6 then old(connsIPv6) else old(connsIPv4))[ufrag]
      ensures !old(closed) && ufrag !in (if isIPv6 then old(connsIPv6) else old(connsIPv4)) ==>
                fresh(c) && created == old(created) + {c} && c.addresses == [] && !c.closed
    {
      if closed {
        return null;
      }
      if isIPv6 && ufrag in connsIPv6 {
        return connsIPv6[ufrag];
      }
      if !isIPv6 && ufrag in connsIPv4 {
        return connsIPv4[ufrag];
      }
      var conn := new MuxedConn(ufrag);
      created := created + {conn};
      if isIPv6 {
        connsIPv6 := connsIPv6[ufrag := conn];
      } else {
        connsIPv4 := connsIPv4[ufrag := conn];
      }
      return conn;
    }

    method RegisterConnForAddress(conn: MuxedConn, a: IpPort)
      modifies this`addressMap, (if !closed && a in addressMap then {addressMap[a]} else {})`addresses
      ensures closed ==> addressMap == old(addressMap)
      ensures !closed ==> addressMap == old(addressMap)[a := conn]
      ensures !closed && a in old(addressMap) ==>
                old(addressMap[a]).addresses == Without(old(addressMap[a].addresses), a)
    {
      if closed {
        return;
      }
      if a in addressMap {
        addressMap[a].RemoveAddress(a);
      }
      addressMap := addressMap[a := conn];
    }

    /** Lists an address and takes it over in the index, from exactly the connection that had it. */
    method AddAddress(conn: MuxedConn, a: IpPort)
      requires Valid() && conn in created && a !in conn.addresses
      modifies this`addressMap, conn`addresses, (if a in addressMap then {addressMap[a]} else {})`addresses
      ensures Valid() && conn.addresses == old(conn.addresses) + [a]
      ensures addressMap == if closed then old(addressMap) else old(addressMap)[a := conn]
      ensures forall c :: c in created && c != conn ==>
                c.addresses == if !closed && a in old(addressMap) && old(addressMap)[a] == c
                               then Without(old(c.addresses), a) else old(c.addresses)
    {
      conn.addresses := conn.addresses + [a];
      assert a in addressMap ==> addressMap[a] != conn;
      RegisterConnForAddress(conn, a);
    }

    /** `WriteTo`, up to the socket: a first write to an address lists it. */
    method WriteTo(conn: MuxedConn, a: IpPort) returns (ok: bool)
      requires Valid() && conn in created
      modifies this`addressMap, conn`addresses, (if a in addressMap then {addressMap[a]} else {})`addresses
      ensures Valid() && ok == !conn.closed
      ensures conn.closed || a in old(conn.addresses) ==>
                addressMap == old(addressMap) && forall c :: c in created ==> c.addresses == old(c.addresses)
      ensures !conn.closed && a !in old(conn.addresses) ==>
                && addressMap == (if closed then old(addressMap) else old(addressMap)[a := conn])
                && conn.addresses == old(conn.addresses) + [a]
      ensures !conn.closed && a !in old(conn.addresses) ==>
                forall c :: c in created && c != conn ==>
                  c.addresses == if !closed && a in old(addressMap) && old(addressMap)[a] == c
                                 then Without(old(c.addresses), a) else old(c.addresses)
    {
      if conn.closed {
        return false;
      }
      var listed := conn.ContainsAddress(a);
      if !listed {
        AddAddress(conn, a);
      }
      return true;
    }

    /** The connections of a user fragment. */
    ghost function Named(ufrag: string): set<MuxedConn>
      reads this
    {
      (if ufrag in connsIPv4 then {connsIPv4[ufrag]} else {}) + (if ufrag in connsIPv6 then {connsIPv6[ufrag]} else {})
    }

    method DeleteAddresses(addresses: seq<IpPort>)
      modifies this`addressMap
      ensures addressMap == old(addressMap) - set a | a in addresses
    {
      for i := 0 to |addresses|
        invariant addressMap == old(addressMap) - set a | a in addresses[..i]
      {
        assert addresses[..i + 1] == addresses[..i] + [addresses[i]];
        addressMap := addressMap - {addresses[i]};
      }
      assert addresses[..|addresses|] == addresses;
    }

    /** Deletes every address that these connections list. */
    method Purge(removed: seq<MuxedConn>)
      requires forall a :: a in addressMap ==> a in addressMap[a].addresses
      requires forall c :: c in removed ==> forall a :: a in c.addresses ==> a in addressMap && addressMap[a] == c
      modifies this`addressMap
      ensures addressMap == Purged(old(addressMap), set c | c in removed)
    {
      for i := 0 to |removed|
        invariant addressMap == Purged(old(addressMap), set c | c in removed[..i])
      {
        assert removed[..i + 1] == removed[..i] + [removed[i]] && removed[i] in removed;
        DeleteAddresses(removed[i].addresses);
      }
      assert removed[..|removed|] == removed;
    }

    /** Takes the connections of a user fragment out of the tables. */
    method TakeOut(ufrag: string) returns (removed: seq<MuxedConn>)
      requires Valid()
      modifies this`connsIPv4, this`connsIPv6
      ensures Valid()
      ensures connsIPv4 == old(connsIPv4) - {ufrag} && connsIPv6 == old(connsIPv6) - {ufrag}
      ensures forall c :: c in removed <==> c in old(Named(ufrag))
      ensures forall c :: c in removed ==> c.key == ufrag && c in created && old(Tabled(c))
    {
      removed := [];
      if ufrag in connsIPv4 {
        assert Tabled(connsIPv4[ufrag]);
        removed := removed + [connsIPv4[ufrag]];
      }
      if ufrag in connsIPv6 {
        assert Tabled(connsIPv6[ufrag]);
        removed := removed + [connsIPv6[ufrag]];
      }
      connsIPv4, connsIPv6 := connsIPv4 - {ufrag}, connsIPv6 - {ufrag};
      assert forall c :: Tabled(c) ==> old(Tabled(c));
    }

    /** Takes the connections of a user fragment out of the tables, and exactly their entries out of the index. */
    method RemoveConnByUfrag(ufrag: string)
      requires Valid()
      modifies this`connsIPv4, this`connsIPv6, this`addressMap
      ensures Valid()
      ensures connsIPv4 == old(connsIPv4) - {ufrag} && connsIPv6 == old(connsIPv6) - {ufrag}
      ensures addressMap == Purged(old(addressMap), old(Named(ufrag)))
    {
      var removed := TakeOut(ufrag);
      if |removed| == 0 {
        NothingPurged(addressMap, old(Named(ufrag)));
        return;
      }
      assert (set c | c in removed) == old(Named(ufrag));
      Purge(removed);
      assert forall c :: Tabled(c) ==> c.key != ufrag;
    }

    /** What the goroutine of a connection does once the connection is closed: it removes by name. A connection in the
        tables goes exactly when it has the fragment of the closed one, so an open one goes unless everything of that
        name is closed. */
    method AfterClose(c: MuxedConn)
      requires Valid() && c in created && c.closed
      modifies this`connsIPv4, this`connsIPv6, this`addressMap
      ensures Valid()
      ensures forall d :: d in created && old(Tabled(d)) ==> (Tabled(d) <==> d.key != c.key)
      ensures addressMap == Purged(old(addressMap), old(Named(c.key)))
      ensures (forall d :: d in created && old(Tabled(d)) && !d.closed ==> Tabled(d)) <==>
              forall d :: d in old(Named(c.key)) ==> d.closed
    {
      assert forall d :: d in Named(c.key) ==> Tabled(d) && d in created && d.key == c.key;
      RemoveConnByUfrag(c.key);
      assert forall d :: Tabled(d) ==> d.key != c.key;
      forall d | d in created && old(Tabled(d)) && d.key != c.key ensures Tabled(d) {
        assert old(d.key in connsIPv4 && connsIPv4[d.key] == d) || old(d.key in connsIPv6 && connsIPv6[d.key] == d);
        assert (d.key in connsIPv4 && connsIPv4[d.key] == d) || (d.key in connsIPv6 && connsIPv6[d.key] == d);
      }
      forall d | d in created && old(Tabled(d)) && d.key == c.key ensures d in old(Named(c.key)) {
      }
    }

    method CloseAll(conns: map<string, MuxedConn>)
      modifies conns.Values`closed
      ensures forall u :: u in conns ==> conns[u].closed
    {
      var left := conns.Keys;
      while left != {}
        invariant left <= conns.Keys
        invariant forall u :: u in conns && u !in left ==> conns[u].closed
      {
        var u :| u in left;
        conns[u].Close();
        left := left - {u};
      }
    }

    /** Closes every connection in the tables and empties the tables; the index keeps its entries. */
    method Close()
      requires Valid()
      modifies this`connsIPv4, this`connsIPv6, this`closed, connsIPv4.Values`closed, connsIPv6.Values`closed
      ensures Valid() && closed && connsIPv4 == map[] && connsIPv6 == map[]
      ensures forall c :: c in created && old(Tabled(c)) ==> c.closed
    {
      if !closed {
        CloseAll(connsIPv4);
        CloseAll(connsIPv6);
        connsIPv4, connsIPv6 := map[], map[];
        closed := true;
      }
    }

    /** Where the worker sends a packet from `a`: to the indexed connection, or else, for a STUN message, to the one its
        user fragment names. A connection in the tables gets every packet from an address that it lists. */
    method Destination(a: IpPort, ufrag: Option<string>, isIPv6: bool) returns (c: MuxedConn?)
      requires Valid()
      ensures forall d :: d in created && Tabled(d) && a in d.addresses ==> c == d
      ensures a !in addressMap && ufrag.None? ==> c == null
      ensures a !in addressMap && ufrag.Some? ==>
                var conns := if isIPv6 then connsIPv6 else connsIPv4;
                c == if ufrag.value in conns then conns[ufrag.value] else null
    {
      if a in addressMap {
        return addressMap[a];
      }
      if ufrag.Some? {
        if isIPv6 && ufrag.value in connsIPv6 {
          return connsIPv6[ufrag.value];
        }
        if !isIPv6 && ufrag.value in connsIPv4 {
          return connsIPv4[ufrag.value];
        }
      }
      return null;
    }

    lemma NothingPurged(index: map<IpPort, MuxedConn>, removed: set<MuxedConn>)
      requires removed == {}
      ensures Purged(index, removed) == index
    {
    }
  }

  /** A connection is removed by name and replaced, and closed after that: its goroutine takes out the open connection that
      replaced it, and packets from an address that this one has written to do not reach it any more. */
  method LateClose(ufrag: string, a: IpPort) returns (mux: UDPMux, first: MuxedConn, second: MuxedConn)
    ensures mux.Valid() && first.closed && first != second && !second.closed && second.key == ufrag
    ensures a in second.addresses && !mux.Tabled(second) && a !in mux.addressMap
  {
    mux := new UDPMux();
    first := mux.GetConn(ufrag, false);
    mux.RemoveConnByUfrag(ufrag);
    second := mux.GetConn(ufrag, false);
    var ok := mux.WriteTo(second, a);
    first.Close();
    assert mux.connsIPv4[ufrag] == second;
    assert mux.Tabled(second) && mux.addressMap[a] == second;
    mux.AfterClose(first);
  }

  /** Closing the connection of one address family takes out that of the other. */
  method OtherFamily(ufrag: string) returns (mux: UDPMux, first: MuxedConn, second: MuxedConn)
    ensures mux.Valid() && first.closed && first != second && !second.closed && !mux.Tabled(second)
  {
    mux := new UDPMux();
    first := mux.GetConn(ufrag, false);
    second := mux.GetConn(ufrag, true);
    first.Close();
    assert mux.connsIPv6[ufrag] == second;
    assert mux.Tabled(second);
    mux.AfterClose(first);
  }

  ghost function Purged(index: map<IpPort, MuxedConn>, removed: set<MuxedConn>): map<IpPort, MuxedConn> {
    map a | a in index && index[a] !in removed :: index[a]
  }
}
