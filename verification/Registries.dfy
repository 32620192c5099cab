/** The small shared stores around a connection: the server's registry, the gateway's presence
    store, and the presence service's online store. Each method is one critical section. */
module Registries {
  import opened Framing
  import opened Rooms
  import opened Listings

  const CAPACITY := 100

  /** Everyone whose stored connection is another one. */
  function WithoutConn<C(==)>(m: map<Text, C>, conn: C): map<Text, C> {
    map u | u in m && m[u] != conn :: m[u]
  }

  /** The online store after one presence event. */
  function Marked(online: set<Text>, user: Text, isOnline: bool): set<Text> {
    if isOnline then online + {user} else online - {user}
  }

  class Registry {
    var conns: map<Conn, bool>

    constructor ()
      ensures conns == map[]
    {
      conns := map[];
    }

    method Add(conn: Conn?) returns (ok: bool)
      modifies this
      ensures ok <==> conn != null && |old(conns)| < CAPACITY
      ensures conns.Keys == old(conns.Keys) + (if ok then {conn as Conn} else {})
      ensures |old(conns)| <= CAPACITY ==> |conns| <= CAPACITY
    {
      if conn == null {
        return false;
      }
      if |conns| >= CAPACITY {
        return false;
      }
      var c: Conn := conn;
      assert conns[c := true].Keys == conns.Keys + {c};
      conns := conns[c := true];
      return true;
    }

    method Remove(conn: Conn?) returns (ok: bool)
      modifies this
      ensures ok <==> conn != null
      ensures conns == if conn == null then old(conns) else old(conns) - {conn}
    {
      if conn == null {
        return false;
      }
      conns := conns - {conn};
      return true;
    }

    method Count() returns (n: nat)
      ensures n == |conns|
    {
      n := |conns|;
    }
  }

  class InMemoryPresenceStore {
    var conns: map<Text, Conn>

    constructor ()
      ensures conns == map[]
    {
      conns := map[];
    }

    method Add(username: Text, conn: Conn?) returns (ok: bool)
      modifies this
      ensures ok <==> conn != null
      ensures conns == if conn == null then old(conns) else old(conns)[username := conn]
    {
      if conn == null {
        return false;
      }
      conns := conns[username := conn];
      return true;
    }

    /** Deletes every entry holding the connection while ranging, in whatever order names come up. */
    method Remove(conn: Conn?) returns (ok: bool)
      modifies this
      ensures ok <==> conn != null
      ensures conns == if conn == null then old(conns) else WithoutConn(old(conns), conn)
    {
      if conn == null {
        return false;
      }
      var pending := conns.Keys;
      while pending != {}
        invariant pending <= conns.Keys
        invariant conns == map u | u in old(conns) && (u in pending || old(conns)[u] != conn) :: old(conns)[u]
        decreases |pending|
      {
        var username :| username in pending;
        pending := pending - {username};
        if conns[username] == conn {
          conns := conns - {username};
        }
      }
      return true;
    }

    method List() returns (users: seq<Text>)
      ensures IsListing(users, conns.Keys)
    {
      users := Listing(conns.Keys);
    }
  }

  class InMemoryOnlineStore {
    var online: map<Text, bool>

    constructor ()
      ensures online == map[]
    {
      online := map[];
    }

    method SetOnline(username: Text, isOnline: bool)
      modifies this
      ensures online.Keys == Marked(old(online.Keys), username, isOnline)
    {
      if isOnline {
        online := online[username := true];
      } else {
        online := online - {username};
      }
    }

    method ListOnline() returns (users: seq<Text>)
      ensures IsListing(users, online.Keys)
    {
      users := Listing(online.Keys);
    }
  }
}
