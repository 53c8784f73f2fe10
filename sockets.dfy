/** backend/src/sockets.py: the table of live sockets, one per session id,
    with connect, disconnect and fan-out of a new message, and the catch-up
    that sends a joining socket the whole history. What `send_json` and
    `accept` would put on the wire is recorded in an outbox. */
module Sockets {
  import opened Wrappers
  import opened Data
  import opened Service

  /** The identity of a WebSocket object; `==` on two sockets is identity. */
  type SocketId = nat

  /** What the core does to a socket: accept its handshake, or send it one
      JSON batch of messages. */
  datatype Event = Accepted(socket: SocketId) | Sent(socket: SocketId, batch: seq<Message>)

  /** One (session uuid, socket) item of `active`. */
  type Entry = (string, SocketId)

  /** The keys of `active`, in the dict's order. */
  function Keys(t: seq<Entry>): (ks: seq<string>)
    ensures |ks| == |t|
  {
    if t == [] then [] else [t[0].0] + Keys(t[1..])
  }

  /** A dict holds each key at most once. */
  predicate UniqueKeys(t: seq<Entry>) {
    Distinct(Keys(t))
  }

  /** `active.get(key)`. */
  function Lookup(t: seq<Entry>, key: string): Option<SocketId> {
    if t == [] then None
    else if t[0].0 == key then Some(t[0].1)
    else Lookup(t[1..], key)
  }

  /** `active[key] = ws`: an existing key keeps its place and takes the new
      socket; a new key goes to the end. */
  function Assign(t: seq<Entry>, key: string, ws: SocketId): seq<Entry> {
    if t == [] then [(key, ws)]
    else if t[0].0 == key then [(key, ws)] + t[1..]
    else [t[0]] + Assign(t[1..], key, ws)
  }

  /** The entries left by the first `pop` in `disconnect`: the first entry,
      in insertion order, whose socket is `ws` goes; nothing else does. */
  function RemoveFirst(t: seq<Entry>, ws: SocketId): seq<Entry> {
    if t == [] then []
    else if t[0].1 == ws then t[1..]
    else [t[0]] + RemoveFirst(t[1..], ws)
  }

  /** The sends `update_session(key, m)` makes over the entries `t`: the
      one-element batch `[m]` to each entry whose key equals `key`. */
  function FanOut(t: seq<Entry>, key: string, m: Message): seq<Event> {
    if t == [] then []
    else (if t[0].0 == key then [Sent(t[0].1, [m])] else []) + FanOut(t[1..], key, m)
  }

  lemma {:induction false} KeysAppend(a: seq<Entry>, b: seq<Entry>)
    ensures Keys(a + b) == Keys(a) + Keys(b)
  {
    if a == [] {
      assert a + b == b;
    } else {
      assert (a + b)[1..] == a[1..] + b;
      KeysAppend(a[1..], b);
    }
  }

  lemma {:induction false} LookupMissing(t: seq<Entry>, key: string)
    requires key !in Keys(t)
    ensures Lookup(t, key) == None
  {
    if t != [] {
      LookupMissing(t[1..], key);
    }
  }

  /** After `active[key] = ws` the key maps to `ws`, every other key maps to
      what it did, the key order is that of a dict assignment, and the keys
      stay unique: last connect wins, one socket per session id. */
  lemma {:induction false} AssignSpec(t: seq<Entry>, key: string, ws: SocketId)
    ensures Lookup(Assign(t, key, ws), key) == Some(ws)
    ensures forall k :: k != key ==> Lookup(Assign(t, key, ws), k) == Lookup(t, k)
    ensures Keys(Assign(t, key, ws)) == WriteOrder(Keys(t), key)
    ensures UniqueKeys(t) ==> UniqueKeys(Assign(t, key, ws))
  {
    if t != [] && t[0].0 != key {
      AssignSpec(t[1..], key, ws);
      assert Keys(Assign(t, key, ws)) == [t[0].0] + Keys(Assign(t[1..], key, ws));
    }
  }

  lemma {:induction false} RemoveFirstAbsent(t: seq<Entry>, ws: SocketId)
    requires forall j :: 0 <= j < |t| ==> t[j].1 != ws
    ensures RemoveFirst(t, ws) == t
  {
    if t != [] {
      RemoveFirstAbsent(t[1..], ws);
    }
  }

  lemma {:induction false} RemoveFirstAt(t: seq<Entry>, ws: SocketId, i: nat)
    requires i < |t| && t[i].1 == ws
    requires forall j :: 0 <= j < i ==> t[j].1 != ws
    ensures RemoveFirst(t, ws) == t[..i] + t[i + 1..]
  {
    if i > 0 {
      RemoveFirstAt(t[1..], ws, i - 1);
      assert t[..i] == [t[0]] + t[1..][..i - 1];
      assert t[i + 1..] == t[1..][i..];
    }
  }

  lemma DropKeepsDistinct(t: seq<Entry>, i: nat)
    requires i < |t| && UniqueKeys(t)
    ensures UniqueKeys(t[..i] + t[i + 1..])
  {
    KeysAppend(t[..i], t[i + 1..]);
    KeysAppend(t[..i], t[i..]);
    KeysAppend([t[i]], t[i + 1..]);
    assert t == t[..i] + t[i..];
    assert t[i..] == [t[i]] + t[i + 1..];
    var ks := Keys(t);
    assert Keys(t[..i] + t[i + 1..]) == ks[..i] + ks[i + 1..];
  }

  /** `disconnect(ws)` takes out exactly one entry when some entry holds `ws`
      (the first one) and none otherwise, and keeps the keys unique. */
  lemma RemoveFirstSpec(t: seq<Entry>, ws: SocketId)
    requires UniqueKeys(t)
    ensures UniqueKeys(RemoveFirst(t, ws))
    ensures (forall j :: 0 <= j < |t| ==> t[j].1 != ws) ==> RemoveFirst(t, ws) == t
    ensures (exists j :: 0 <= j < |t| && t[j].1 == ws) ==>
      exists i :: 0 <= i < |t| && t[i].1 == ws && (forall j :: 0 <= j < i ==> t[j].1 != ws) &&
        RemoveFirst(t, ws) == t[..i] + t[i + 1..]
  {
    if exists j :: 0 <= j < |t| && t[j].1 == ws {
      var i := FirstHolding(t, ws);
      RemoveFirstAt(t, ws, i);
      DropKeepsDistinct(t, i);
    } else {
      RemoveFirstAbsent(t, ws);
    }
  }

  /** The index of the first entry holding `ws`. */
  function FirstHolding(t: seq<Entry>, ws: SocketId): (i: nat)
    requires exists j :: 0 <= j < |t| && t[j].1 == ws
    ensures i < |t| && t[i].1 == ws
    ensures forall j :: 0 <= j < i ==> t[j].1 != ws
  {
    if t[0].1 == ws then 0
    else
      assert exists j :: 0 <= j < |t[1..]| && t[1..][j].1 == ws by {
        var j :| 0 <= j < |t| && t[j].1 == ws;
        assert t[1..][j - 1].1 == ws;
      }
      1 + FirstHolding(t[1..], ws)
  }

  /** Disconnecting a socket that is registered under at most one key twice
      is the same as doing it once: the second call finds nothing. */
  lemma DisconnectTwice(t: seq<Entry>, ws: SocketId)
    requires forall i, j :: 0 <= i < j < |t| && t[i].1 == ws ==> t[j].1 != ws
    ensures RemoveFirst(RemoveFirst(t, ws), ws) == RemoveFirst(t, ws)
  {
    if exists j :: 0 <= j < |t| && t[j].1 == ws {
      var i := FirstHolding(t, ws);
      RemoveFirstAt(t, ws, i);
      var r := t[..i] + t[i + 1..];
      forall j | 0 <= j < |r|
        ensures r[j].1 != ws
      {
        if j >= i {
          assert r[j] == t[j + 1];
        }
      }
      RemoveFirstAbsent(r, ws);
    } else {
      RemoveFirstAbsent(t, ws);
    }
  }

  lemma {:induction false} FanOutAppend(a: seq<Entry>, b: seq<Entry>, key: string, m: Message)
    ensures FanOut(a + b, key, m) == FanOut(a, key, m) + FanOut(b, key, m)
  {
    if a == [] {
      assert a + b == b;
    } else {
      assert (a + b)[1..] == a[1..] + b;
      FanOutAppend(a[1..], b, key, m);
    }
  }

  /** Every send of `update_session(key, m)` carries the one-element batch
      `[m]`, never the history, and goes to a socket registered under a key
      EQUAL to `key`; there are as many sends as entries under `key`. */
  lemma {:induction false} FanOutTargets(t: seq<Entry>, key: string, m: Message)
    ensures forall e :: e in FanOut(t, key, m) ==> e.Sent? && e.batch == [m] && (key, e.socket) in t
    ensures |FanOut(t, key, m)| == multiset(Keys(t))[key]
  {
    if t != [] {
      FanOutTargets(t[1..], key, m);
      assert Keys(t) == [t[0].0] + Keys(t[1..]);
      assert multiset(Keys(t)) == multiset([t[0].0]) + multiset(Keys(t[1..]));
      forall e | e in FanOut(t, key, m)
        ensures e.Sent? && e.batch == [m] && (key, e.socket) in t
      {
        if e !in FanOut(t[1..], key, m) {
          assert t[0].0 == key && e == Sent(t[0].1, [m]);
        } else {
          assert (key, e.socket) in t[1..];
        }
      }
    }
  }

  lemma KeysTail(t: seq<Entry>)
    requires UniqueKeys(t) && t != []
    ensures UniqueKeys(t[1..]) && t[0].0 !in Keys(t[1..])
  {
    var ks := Keys(t);
    assert Keys(t[1..]) == ks[1..];
    forall j | 0 <= j < |ks| - 1
      ensures ks[1..][j] != ks[0]
    {
      assert ks[1..][j] == ks[j + 1];
    }
  }

  /** With unique keys, `update_session(key, m)` sends `[m]` once to the
      socket registered under `key`, and nothing when the key is absent. */
  lemma {:induction false} FanOutUnique(t: seq<Entry>, key: string, m: Message)
    requires UniqueKeys(t)
    ensures FanOut(t, key, m) == match Lookup(t, key) case Some(s) => [Sent(s, [m])] case None => []
  {
    if t != [] {
      KeysTail(t);
      if t[0].0 == key {
        FanOutMissing(t[1..], key, m);
      } else {
        FanOutUnique(t[1..], key, m);
      }
    }
  }

  lemma {:induction false} FanOutMissing(t: seq<Entry>, key: string, m: Message)
    requires key !in Keys(t)
    ensures FanOut(t, key, m) == []
  {
    if t != [] {
      FanOutMissing(t[1..], key, m);
    }
  }

  /** Key matching is string equality, not prefix: with sockets under "s1"
      and "s12", traffic for "s12" reaches only the "s12" socket and traffic
      for "s1" only the "s1" socket. */
  lemma NoPrefixCrosstalk(m: Message)
    ensures FanOut([("s1", 1), ("s12", 2)], "s12", m) == [Sent(2, [m])]
    ensures FanOut([("s1", 1), ("s12", 2)], "s1", m) == [Sent(1, [m])]
  {
    var t: seq<Entry> := [("s1", 1), ("s12", 2)];
    assert "s1" != "s12" by {
      assert |"s1"| != |"s12"|;
    }
    assert t[1..] == [("s12", 2)] && t[1..][1..] == [];
    assert FanOut(t[1..][1..], "s12", m) == [] && FanOut(t[1..][1..], "s1", m) == [];
    assert FanOut(t[1..], "s12", m) == [Sent(2, [m])];
    assert FanOut(t[1..], "s1", m) == [];
  }

  /** Sockets are keyed by session id alone: when a second viewer connects to
      a session, the first viewer's socket is no longer in the table and the
      session's next message goes to the second viewer only. */
  lemma SecondViewerReplacesFirst(t: seq<Entry>, key: string, first: SocketId, second: SocketId, m: Message)
    requires UniqueKeys(t)
    ensures FanOut(Assign(Assign(t, key, first), key, second), key, m) == [Sent(second, [m])]
  {
    AssignSpec(t, key, first);
    AssignSpec(Assign(t, key, first), key, second);
    FanOutUnique(Assign(Assign(t, key, first), key, second), key, m);
  }

  /** The record of everything sent to sockets. */
  class Outbox {
    var events: seq<Event>

    constructor ()
      ensures events == []
    {
      events := [];
    }

    /** `websocket.accept()`. */
    method Accept(socket: SocketId)
      modifies this
      ensures events == old(events) + [Accepted(socket)]
    {
      events := events + [Accepted(socket)];
    }

    /** `socket.send_json(batch)`, each message dumped to JSON. */
    method SendJson(socket: SocketId, batch: seq<Message>)
      modifies this
      ensures events == old(events) + [Sent(socket, batch)]
    {
      events := events + [Sent(socket, batch)];
    }
  }

  class SessionSocketManager {
    /** `self.active`: session uuid -> socket, in insertion order. */
    var active: seq<Entry>

    ghost predicate Valid()
      reads this
    {
      UniqueKeys(active)
    }

    constructor ()
      ensures Valid() && active == []
    {
      active := [];
    }

    /** `connect`: accept the socket, then file it under the session uuid,
        replacing any socket already there. */
    method Connect(out: Outbox, websocket: SocketId, sessionUuid: string)
      requires Valid()
      modifies this, out
      ensures Valid()
      ensures active == Assign(old(active), sessionUuid, websocket)
      ensures Lookup(active, sessionUuid) == Some(websocket)
      ensures forall k :: k != sessionUuid ==> Lookup(active, k) == Lookup(old(active), k)
      ensures out.events == old(out.events) + [Accepted(websocket)]
    {
      out.Accept(websocket);
      AssignSpec(active, sessionUuid, websocket);
      active := Assign(active, sessionUuid, websocket);
    }

    /** `disconnect`: scan a snapshot of the items and pop the first whose
        socket is `websocket`, then stop. */
    method Disconnect(websocket: SocketId)
      requires Valid()
      modifies this
      ensures Valid()
      ensures active == RemoveFirst(old(active), websocket)
    {
      var snapshot := active;
      RemoveFirstSpec(snapshot, websocket);
      var i := 0;
      while i < |snapshot|
        invariant 0 <= i <= |snapshot|
        invariant active == snapshot == old(active)
        invariant forall j :: 0 <= j < i ==> snapshot[j].1 != websocket
      {
        if snapshot[i].1 == websocket {
          RemoveFirstAt(snapshot, websocket, i);
          active := snapshot[..i] + snapshot[i + 1..];
          return;
        }
        i := i + 1;
      }
      RemoveFirstAbsent(snapshot, websocket);
    }

    /** `update_session`: over a snapshot of the items, send `[message]` to
        every socket whose key equals `sessionId`. The table is not changed. */
    method UpdateSession(out: Outbox, sessionId: string, message: Message)
      modifies out
      ensures out.events == old(out.events) + FanOut(active, sessionId, message)
    {
      var snapshot := active;
      var i := 0;
      while i < |snapshot|
        invariant 0 <= i <= |snapshot|
        invariant out.events == old(out.events) + FanOut(snapshot[..i], sessionId, message)
      {
        FanOutAppend(snapshot[..i], [snapshot[i]], sessionId, message);
        assert snapshot[..i + 1] == snapshot[..i] + [snapshot[i]];
        if snapshot[i].0 == sessionId {
          out.SendJson(snapshot[i].1, [message]);
        }
        i := i + 1;
      }
      assert snapshot[..|snapshot|] == snapshot;
    }
  }

  /** `catch_up_socket`: send the session's whole history, in stored order, as
      one batch; the lookup raises KeyError for an unknown session, and then
      nothing is sent. */
  method CatchUpSocket(out: Outbox, store: SessionStore, socket: SocketId, sessionId: string)
    returns (r: Outcome<Error>)
    modifies out
    ensures sessionId in store.storage ==>
      r == Pass && out.events == old(out.events) + [Sent(socket, store.storage[sessionId].content)]
    ensures sessionId !in store.storage ==>
      r == Fail(KeyError(sessionId)) && out.events == old(out.events)
  {
    var got := store.GetOnly(sessionId);
    match got
    case Failure(e) =>
      r := Fail(e);
    case Success(session) =>
      out.SendJson(socket, session.content);
      r := Pass;
  }
}
