/**
 * The registry of open dashboard sockets, grouped by connection type
 * ("standard" and "hourly" streams, and any other type a caller names).
 */
module ConnectionRegistry {

  /** A socket; equal values are the same connection. */
  datatype WebSocket = WebSocket(id: nat)

  /** Connection type to the sockets of that type, in connection order. */
  type Connections = map<string, seq<WebSocket>>

  /** The registry as first created: the two stream types, with no sockets. */
  function InitialConnections(): (m: Connections)
    ensures m.Keys == {"standard", "hourly"}
    ensures m["standard"] == [] && m["hourly"] == []
  {
    map["standard" := [], "hourly" := []]
  }

  /** Position of the first occurrence of `x` in `s`, or `|s|` when it does not occur. */
  function FirstIndex(s: seq<WebSocket>, x: WebSocket): (i: nat)
    ensures i <= |s|
    ensures x !in s[..i]
    ensures i < |s| <==> x in s
    ensures i < |s| ==> s[i] == x
  {
    if |s| == 0 then 0
    else if s[0] == x then 0
    else
      var j := FirstIndex(s[1..], x);
      assert s[..j + 1] == [s[0]] + s[1..][..j];
      assert s == [s[0]] + s[1..];
      1 + j
  }

  /** `s` without its first occurrence of `x`; `s` itself when `x` does not occur. */
  function RemoveFirst(s: seq<WebSocket>, x: WebSocket): (r: seq<WebSocket>)
    ensures |r| <= |s|
  {
    if |s| == 0 then []
    else if s[0] == x then s[1..]
    else [s[0]] + RemoveFirst(s[1..], x)
  }

  /** Removal cuts out exactly the first occurrence, and nothing when there is none. */
  lemma {:induction false} RemoveFirstCutsFirst(s: seq<WebSocket>, x: WebSocket)
    ensures var i := FirstIndex(s, x);
      i < |s| ==> RemoveFirst(s, x) == s[..i] + s[i + 1..]
    ensures x !in s ==> RemoveFirst(s, x) == s
  {
    if |s| > 0 && s[0] != x {
      RemoveFirstCutsFirst(s[1..], x);
      var j := FirstIndex(s[1..], x);
      if j < |s[1..]| {
        assert s[..j + 1] == [s[0]] + s[1..][..j];
        assert s[j + 2..] == s[1..][j + 1..];
      }
      assert s == [s[0]] + s[1..];
    }
  }

  /** Removal takes away one copy of `x` when it occurs, and keeps every other socket. */
  lemma {:induction false} RemoveFirstMultiset(s: seq<WebSocket>, x: WebSocket)
    ensures x in s ==> |RemoveFirst(s, x)| == |s| - 1
    ensures multiset(RemoveFirst(s, x)) == multiset(s) - multiset{x}
  {
    if |s| > 0 {
      assert s == [s[0]] + s[1..];
      assert multiset(s) == multiset{s[0]} + multiset(s[1..]);
      if s[0] != x {
        RemoveFirstMultiset(s[1..], x);
        var rest := RemoveFirst(s[1..], x);
        assert multiset([s[0]] + rest) == multiset{s[0]} + multiset(rest);
      }
    }
  }

  /** The registry after a socket connects with a type: appended to that type's list,
      which is created if the type is new. */
  function AfterConnect(m: Connections, websocket: WebSocket, connectionType: string): Connections
  {
    var conns := if connectionType in m then m[connectionType] else [];
    m[connectionType := conns + [websocket]]
  }

  /** The registry after a socket disconnects from a type: its first occurrence in that
      type's list is removed; nothing changes if the type is unknown or the socket absent. */
  function AfterDisconnect(m: Connections, websocket: WebSocket, connectionType: string): Connections
  {
    if connectionType in m && websocket in m[connectionType] then
      m[connectionType := RemoveFirst(m[connectionType], websocket)]
    else m
  }

  /** Connecting appends to the end of its type's list and leaves every other type's list alone. */
  lemma ConnectAppends(m: Connections, websocket: WebSocket, connectionType: string)
    ensures var r := AfterConnect(m, websocket, connectionType);
      && r.Keys == m.Keys + {connectionType}
      && |r[connectionType]| >= 1 && r[connectionType][|r[connectionType]| - 1] == websocket
      && (connectionType in m ==> r[connectionType][..|r[connectionType]| - 1] == m[connectionType])
      && (connectionType !in m ==> r[connectionType] == [websocket])
      && (forall t :: t in m && t != connectionType ==> r[t] == m[t])
  {
  }

  /** Disconnecting never deletes a type, removes at most one socket, and leaves every other type alone. */
  lemma DisconnectRemovesFirstOnly(m: Connections, websocket: WebSocket, connectionType: string)
    ensures var r := AfterDisconnect(m, websocket, connectionType);
      && r.Keys == m.Keys
      && (forall t :: t in m && t != connectionType ==> r[t] == m[t])
      && (connectionType in m && websocket in m[connectionType] ==>
            multiset(r[connectionType]) == multiset(m[connectionType]) - multiset{websocket})
      && (connectionType !in m || websocket !in m[connectionType] ==> r == m)
  {
    if connectionType in m {
      RemoveFirstMultiset(m[connectionType], websocket);
    }
  }

  /** A socket that connects and then disconnects leaves the registry as it was,
      except that a type it introduced stays registered with an empty list. */
  lemma {:induction false} ConnectThenDisconnect(m: Connections, websocket: WebSocket, connectionType: string)
    requires connectionType in m ==> websocket !in m[connectionType]
    ensures connectionType in m ==> AfterDisconnect(AfterConnect(m, websocket, connectionType), websocket, connectionType) == m
    ensures connectionType !in m ==>
              AfterDisconnect(AfterConnect(m, websocket, connectionType), websocket, connectionType) == m[connectionType := []]
  {
    var conns := if connectionType in m then m[connectionType] else [];
    var connected := AfterConnect(m, websocket, connectionType);
    assert connected[connectionType] == conns + [websocket];
    RemoveFirstOfAppended(conns, websocket);
    var r := AfterDisconnect(connected, websocket, connectionType);
    assert websocket in connected[connectionType];
    assert r == m[connectionType := conns];
  }

  lemma {:induction false} RemoveFirstOfAppended(s: seq<WebSocket>, x: WebSocket)
    requires x !in s
    ensures RemoveFirst(s + [x], x) == s
  {
    if |s| > 0 {
      assert (s + [x])[1..] == s[1..] + [x];
      RemoveFirstOfAppended(s[1..], x);
    }
  }

  class ConnectionManager {
    var activeConnections: Connections

    constructor ()
      ensures activeConnections == InitialConnections()
    {
      activeConnections := map["standard" := [], "hourly" := []];
    }

    /** Registers a socket under a connection type. */
    method Connect(websocket: WebSocket, connectionType: string)
      modifies this
      ensures activeConnections == AfterConnect(old(activeConnections), websocket, connectionType)
    {
      if connectionType !in activeConnections {
        activeConnections := activeConnections[connectionType := []];
      }
      activeConnections := activeConnections[connectionType := activeConnections[connectionType] + [websocket]];
    }

    /** Unregisters a socket from a connection type. */
    method Disconnect(websocket: WebSocket, connectionType: string)
      modifies this
      ensures activeConnections == AfterDisconnect(old(activeConnections), websocket, connectionType)
    {
      if connectionType in activeConnections {
        var conns := activeConnections[connectionType];
        if websocket in conns {
          activeConnections := activeConnections[connectionType := RemoveFirst(conns, websocket)];
        }
      }
    }

    /** The sockets a broadcast to a connection type addresses, in the order it sends to them. */
    method Broadcast(connectionType: string) returns (addressed: seq<WebSocket>)
      ensures connectionType in activeConnections ==> addressed == activeConnections[connectionType]
      ensures connectionType !in activeConnections ==> addressed == []
    {
      addressed := [];
      if connectionType in activeConnections {
        var conns := activeConnections[connectionType];
        for k := 0 to |conns|
          invariant addressed == conns[..k]
        {
          addressed := addressed + [conns[k]];
        }
      }
    }
  }
}
