/** backend/src/gpt_server.py: the unanswered-sessions listing, session
    creation and the per-socket handler. This file belongs to a later revision
    whose records carry an owner id, an update stamp and per-message author
    ids; its service module (gpt_service) is not part of this model, so the
    collaborators the handler calls are recorded as calls. */
module GptServer {
  import opened Wrappers

  /** A message of this revision: its author's id besides the fields the
      listing does not read. */
  datatype AuthoredMessage = AuthoredMessage(userId: string, name: string, content: string, isAnswer: bool)

  /** A session of this revision: owned by `userId`, stamped with its last
      update. */
  datatype OwnedSession = OwnedSession(
    uuid: string,
    title: string,
    userId: string,
    updatedTimestamp: int,
    content: seq<AuthoredMessage>)

  /** `to_dto()`: the session without its messages. */
  datatype SessionDto = SessionDto(uuid: string, title: string, userId: string, updatedTimestamp: int)

  function ToDto(s: OwnedSession): SessionDto {
    SessionDto(s.uuid, s.title, s.userId, s.updatedTimestamp)
  }

  // ---------------------------------------------------------------------
  // all_unanswered_sessions

  /** The comprehension's condition: someone else's session whose last
      message was written by its owner. Authorship decides, not the
      `isAnswer` flag. */
  predicate AwaitsAnswer(s: OwnedSession, answererId: string) {
    s.userId != answererId && |s.content| > 0 && s.content[|s.content| - 1].userId == s.userId
  }

  /** The comprehension: the DTOs of the qualifying sessions, in listing order. */
  function Candidates(sessions: seq<OwnedSession>, answererId: string): seq<SessionDto> {
    if sessions == [] then []
    else
      (if AwaitsAnswer(sessions[0], answererId) then [ToDto(sessions[0])] else [])
      + Candidates(sessions[1..], answererId)
  }

  /** Places `d` before the first element with an equal or later stamp. */
  function Insert(d: SessionDto, ds: seq<SessionDto>): seq<SessionDto> {
    if ds == [] || d.updatedTimestamp <= ds[0].updatedTimestamp then [d] + ds
    else [ds[0]] + Insert(d, ds[1..])
  }

  /** `sorted(..., key=lambda s: s.updated_timestamp)`, by insertion. */
  function SortByUpdated(ds: seq<SessionDto>): seq<SessionDto> {
    if ds == [] then [] else Insert(ds[0], SortByUpdated(ds[1..]))
  }

  /** `all_unanswered_sessions(answerer_id)` over the sessions
      `get_sessions_list()` returns. */
  function AllUnansweredSessions(sessions: seq<OwnedSession>, answererId: string): seq<SessionDto> {
    SortByUpdated(Candidates(sessions, answererId))
  }

  predicate SortedByUpdated(ds: seq<SessionDto>) {
    forall i, j :: 0 <= i < j < |ds| ==> ds[i].updatedTimestamp <= ds[j].updatedTimestamp
  }

  /** The elements stamped `t`, in order: a stable sort keeps this sequence
      for every `t`. */
  function StampedAt(ds: seq<SessionDto>, t: int): seq<SessionDto> {
    if ds == [] then []
    else (if ds[0].updatedTimestamp == t then [ds[0]] else []) + StampedAt(ds[1..], t)
  }

  predicate DistinctUuids(sessions: seq<OwnedSession>) {
    forall i, j :: 0 <= i < j < |sessions| ==> sessions[i].uuid != sessions[j].uuid
  }

  lemma {:induction false} InsertKeeps(d: SessionDto, ds: seq<SessionDto>)
    ensures multiset(Insert(d, ds)) == multiset(ds) + multiset{d}
  {
    if ds != [] && d.updatedTimestamp > ds[0].updatedTimestamp {
      InsertKeeps(d, ds[1..]);
      assert ds == [ds[0]] + ds[1..];
    }
  }

  lemma {:induction false} InsertSorted(d: SessionDto, ds: seq<SessionDto>)
    requires SortedByUpdated(ds)
    ensures SortedByUpdated(Insert(d, ds))
  {
    if ds != [] && d.updatedTimestamp > ds[0].updatedTimestamp {
      InsertSorted(d, ds[1..]);
      InsertKeeps(d, ds[1..]);
      var r := Insert(d, ds);
      assert r[1..] == Insert(d, ds[1..]);
      forall j | 0 < j < |r|
        ensures ds[0].updatedTimestamp <= r[j].updatedTimestamp
      {
        assert r[j] in multiset(Insert(d, ds[1..]));
        assert r[j] == d || r[j] in ds[1..];
      }
    }
  }

  lemma {:induction false} InsertStable(d: SessionDto, ds: seq<SessionDto>, t: int)
    ensures StampedAt(Insert(d, ds), t) == (if d.updatedTimestamp == t then [d] else []) + StampedAt(ds, t)
  {
    var r := Insert(d, ds);
    var mine := if d.updatedTimestamp == t then [d] else [];
    if ds != [] && d.updatedTimestamp > ds[0].updatedTimestamp {
      InsertStable(d, ds[1..], t);
      assert r == [ds[0]] + Insert(d, ds[1..]);
      assert r[1..] == Insert(d, ds[1..]);
      var head := if ds[0].updatedTimestamp == t then [ds[0]] else [];
      assert StampedAt(r, t) == head + StampedAt(Insert(d, ds[1..]), t);
      assert StampedAt(ds, t) == head + StampedAt(ds[1..], t);
      assert head == [] || mine == [];
    } else {
      assert r == [d] + ds;
      assert r[1..] == ds;
      assert StampedAt(r, t) == mine + StampedAt(ds, t);
    }
  }

  /** The listing's sort orders by stamp, oldest first, loses and adds
      nothing, and is stable: sessions with equal stamps keep their listing
      order. */
  lemma {:induction false} SortSpec(ds: seq<SessionDto>)
    ensures SortedByUpdated(SortByUpdated(ds))
    ensures multiset(SortByUpdated(ds)) == multiset(ds)
    ensures forall t :: StampedAt(SortByUpdated(ds), t) == StampedAt(ds, t)
  {
    if ds != [] {
      SortSpec(ds[1..]);
      InsertKeeps(ds[0], SortByUpdated(ds[1..]));
      InsertSorted(ds[0], SortByUpdated(ds[1..]));
      forall t
        ensures StampedAt(SortByUpdated(ds), t) == StampedAt(ds, t)
      {
        InsertStable(ds[0], SortByUpdated(ds[1..]), t);
      }
      assert ds == [ds[0]] + ds[1..];
    }
  }

  /** Every DTO the comprehension keeps comes from a qualifying session, and
      every qualifying session contributes its DTO. */
  lemma {:induction false} CandidatesSpec(sessions: seq<OwnedSession>, answererId: string)
    ensures forall d :: d in Candidates(sessions, answererId) ==>
      exists i :: 0 <= i < |sessions| && AwaitsAnswer(sessions[i], answererId) && ToDto(sessions[i]) == d
    ensures forall i :: 0 <= i < |sessions| && AwaitsAnswer(sessions[i], answererId) ==>
      ToDto(sessions[i]) in Candidates(sessions, answererId)
  {
    if sessions != [] {
      var rest := sessions[1..];
      CandidatesSpec(rest, answererId);
      forall d | d in Candidates(sessions, answererId)
        ensures exists i :: 0 <= i < |sessions| && AwaitsAnswer(sessions[i], answererId) && ToDto(sessions[i]) == d
      {
        if d !in Candidates(rest, answererId) {
          assert AwaitsAnswer(sessions[0], answererId) && ToDto(sessions[0]) == d;
        } else {
          var i :| 0 <= i < |rest| && AwaitsAnswer(rest[i], answererId) && ToDto(rest[i]) == d;
          assert sessions[i + 1] == rest[i];
        }
      }
      forall i | 0 <= i < |sessions| && AwaitsAnswer(sessions[i], answererId)
        ensures ToDto(sessions[i]) in Candidates(sessions, answererId)
      {
        if i > 0 {
          assert sessions[i] == rest[i - 1];
        }
      }
    }
  }

  lemma {:induction false} CandidatesOnce(sessions: seq<OwnedSession>, answererId: string, i: nat)
    requires DistinctUuids(sessions)
    requires i < |sessions| && AwaitsAnswer(sessions[i], answererId)
    ensures multiset(Candidates(sessions, answererId))[ToDto(sessions[i])] == 1
  {
    var rest := sessions[1..];
    assert DistinctUuids(rest);
    if i == 0 {
      CandidatesSpec(rest, answererId);
      var d := ToDto(sessions[0]);
      assert d !in Candidates(rest, answererId) by {
        forall j | 0 <= j < |rest|
          ensures ToDto(rest[j]) != d
        {
          assert rest[j] == sessions[j + 1];
        }
      }
      assert Candidates(sessions, answererId) == [d] + Candidates(rest, answererId);
    } else {
      assert sessions[0].uuid != sessions[i].uuid;
      CandidatesOnce(rest, answererId, i - 1);
    }
  }

  /** `all_unanswered_sessions`: sound (each listed session belongs to
      someone other than the answerer, and its last message is its owner's),
      complete (each qualifying session is listed, exactly once when the
      uuids are distinct as the store's keys are), sorted oldest first, and
      stable for equal stamps. */
  lemma UnansweredListing(sessions: seq<OwnedSession>, answererId: string)
    ensures var r := AllUnansweredSessions(sessions, answererId);
      && SortedByUpdated(r)
      && multiset(r) == multiset(Candidates(sessions, answererId))
      && (forall t :: StampedAt(r, t) == StampedAt(Candidates(sessions, answererId), t))
      && (forall d :: d in r ==> d.userId != answererId)
      && (forall d :: d in r ==> exists i :: 0 <= i < |sessions| && AwaitsAnswer(sessions[i], answererId) && ToDto(sessions[i]) == d)
      && (forall i :: 0 <= i < |sessions| && AwaitsAnswer(sessions[i], answererId) ==> ToDto(sessions[i]) in r)
      && (DistinctUuids(sessions) ==>
            forall i :: 0 <= i < |sessions| && AwaitsAnswer(sessions[i], answererId) ==> multiset(r)[ToDto(sessions[i])] == 1)
  {
    var c := Candidates(sessions, answererId);
    var r := AllUnansweredSessions(sessions, answererId);
    SortSpec(c);
    CandidatesSpec(sessions, answererId);
    forall d | d in r
      ensures d in c
    {
      assert d in multiset(r);
    }
    forall i | 0 <= i < |sessions| && AwaitsAnswer(sessions[i], answererId)
      ensures ToDto(sessions[i]) in r
    {
      assert ToDto(sessions[i]) in multiset(c);
    }
    if DistinctUuids(sessions) {
      forall i | 0 <= i < |sessions| && AwaitsAnswer(sessions[i], answererId)
        ensures multiset(r)[ToDto(sessions[i])] == 1
      {
        CandidatesOnce(sessions, answererId, i);
      }
    }
  }

  /** Once someone other than the owner writes the last message, the session
      leaves every listing; an owner's follow-up puts it back for everyone
      but the owner, whatever its `isAnswer` flag says. */
  lemma LastAuthorDecides(s: OwnedSession, m: AuthoredMessage, answererId: string)
    ensures m.userId != s.userId ==> !AwaitsAnswer(s.(content := s.content + [m]), answererId)
    ensures m.userId == s.userId ==>
      (AwaitsAnswer(s.(content := s.content + [m]), answererId) <==> answererId != s.userId)
  {
  }

  // ---------------------------------------------------------------------
  // create_session

  /** What the endpoint relies on from `get_or_create_session(None, title,
      user_id)`: a new session under a fresh uuid, owned by `userId`, with the
      given title and no messages. */
  function NewSession(freshId: string, title: string, userId: string, now: int): OwnedSession {
    OwnedSession(freshId, title, userId, now, [])
  }

  /** `create_session`: write the new session and return its DTO. Afterwards
      the session is retrievable under its uuid and no other entry changed. */
  function CreateSession(storage: map<string, OwnedSession>, title: string, userId: string, freshId: string, now: int)
    : (r: (map<string, OwnedSession>, SessionDto))
    ensures freshId in r.0 && r.1 == ToDto(r.0[freshId])
    ensures r.0[freshId].uuid == freshId && r.1.uuid == freshId && r.1.uuid in r.0
    ensures r.0[freshId].updatedTimestamp == now
    ensures r.0[freshId].title == title && r.0[freshId].userId == userId && r.0[freshId].content == []
    ensures forall k :: k != freshId ==> (k in r.0 <==> k in storage)
    ensures forall k :: k != freshId && k in storage ==> r.0[k] == storage[k]
    ensures freshId !in storage ==> |r.0| == |storage| + 1
  {
    var s := NewSession(freshId, title, userId, now);
    (storage[freshId := s], ToDto(s))
  }

  // ---------------------------------------------------------------------
  // ws_session

  /** One outcome of `receive_json` followed by `Message.model_validate`: a
      frame that validates to a message, one that does not, or the peer
      closing the connection (WebSocketDisconnect). */
  datatype Inbound = Frame(parsed: Option<AuthoredMessage>) | PeerClosed

  /** The collaborator calls the handler makes, in order. */
  datatype Call =
    | Connect(socket: nat, sessionId: string, userId: string)
    | CatchUp(socket: nat, sessionId: string, userId: string)
    | Disconnect(socket: nat)
    | Append(sessionId: string, userId: string, message: AuthoredMessage)

  /** How the handler ends: the peer closed, a validation error escaped it, or
      it is still waiting on `receive_json`. */
  datatype Exit = Closed | Crashed | Waiting

  /** Whether the registry holds `ws` after `calls`: its last connect is not
      followed by a disconnect of it. */
  function Registered(calls: seq<Call>, ws: nat): bool {
    if calls == [] then false
    else
      var last := calls[|calls| - 1];
      if last.Connect? && last.socket == ws then true
      else if last.Disconnect? && last.socket == ws then false
      else Registered(calls[..|calls| - 1], ws)
  }

  /** The receive loop as written: append each validated message; a peer
      close disconnects and ends it; a frame that fails validation raises out
      of the handler. */
  function LoopTrace(ws: nat, sessionId: string, userId: string, inbox: seq<Inbound>): seq<Call> {
    if inbox == [] then []
    else match inbox[0]
      case PeerClosed => [Disconnect(ws)]
      case Frame(None) => []
      case Frame(Some(m)) => [Append(sessionId, userId, m)] + LoopTrace(ws, sessionId, userId, inbox[1..])
  }

  function LoopExit(inbox: seq<Inbound>): Exit {
    if inbox == [] then Waiting
    else match inbox[0]
      case PeerClosed => Closed
      case Frame(None) => Crashed
      case Frame(Some(_)) => LoopExit(inbox[1..])
  }

  /** Connect, catch up, disconnect if catch-up failed (and carry on), then
      the receive loop. */
  function HandlerTrace(ws: nat, sessionId: string, userId: string, caughtUp: bool, inbox: seq<Inbound>): seq<Call> {
    [Connect(ws, sessionId, userId), CatchUp(ws, sessionId, userId)]
      + (if caughtUp then [] else [Disconnect(ws)])
      + LoopTrace(ws, sessionId, userId, inbox)
  }

  /** The number of leading frames that validate. */
  function ValidPrefix(inbox: seq<Inbound>): (n: nat)
    ensures n <= |inbox|
  {
    if inbox != [] && inbox[0].Frame? && inbox[0].parsed.Some? then 1 + ValidPrefix(inbox[1..]) else 0
  }

  /** The loop appends the leading valid frames' messages in arrival order to
      the handler's session as its user; then it disconnects if the peer
      closed, and stops without a disconnect if a frame failed validation. */
  lemma {:induction false} LoopSpec(ws: nat, sessionId: string, userId: string, inbox: seq<Inbound>)
    ensures var n := ValidPrefix(inbox);
      var trace := LoopTrace(ws, sessionId, userId, inbox);
      && (forall j :: 0 <= j < n ==> inbox[j].Frame? && inbox[j].parsed.Some?)
      && |trace| == (if n < |inbox| && inbox[n].PeerClosed? then n + 1 else n)
      && (forall j :: 0 <= j < n ==> trace[j] == Append(sessionId, userId, inbox[j].parsed.value))
      && (n < |trace| ==> trace[n] == Disconnect(ws))
      && LoopExit(inbox) == (if n == |inbox| then Waiting else if inbox[n].PeerClosed? then Closed else Crashed)
  {
    if inbox != [] && inbox[0].Frame? && inbox[0].parsed.Some? {
      LoopSpec(ws, sessionId, userId, inbox[1..]);
    }
  }

  lemma {:induction false} RegisteredPastAppends(prior: seq<Call>, appends: seq<Call>, ws: nat)
    requires forall j :: 0 <= j < |appends| ==> appends[j].Append?
    ensures Registered(prior + appends, ws) == Registered(prior, ws)
  {
    if appends == [] {
      assert prior + appends == prior;
    } else {
      var all := prior + appends;
      assert all[..|all| - 1] == prior + appends[..|appends| - 1];
      RegisteredPastAppends(prior, appends[..|appends| - 1], ws);
    }
  }

  /** The socket is in the registry when catch-up runs; a failed catch-up
      takes it out but the loop still runs and appends exactly as after a
      successful one; a peer close leaves it out of the registry. */
  lemma HandlerOrdering(prior: seq<Call>, ws: nat, sessionId: string, userId: string, caughtUp: bool, inbox: seq<Inbound>)
    ensures var h := HandlerTrace(ws, sessionId, userId, caughtUp, inbox);
      && h[1] == CatchUp(ws, sessionId, userId) && Registered(prior + h[..1], ws)
      && (!caughtUp ==>
            (h[2] == Disconnect(ws) && !Registered(prior + h[..3], ws)
             && h[3..] == HandlerTrace(ws, sessionId, userId, true, inbox)[2..]))
      && (LoopExit(inbox) == Closed ==> !Registered(prior + h, ws))
  {
    var h := HandlerTrace(ws, sessionId, userId, caughtUp, inbox);
    assert (prior + h[..1])[..|prior + h[..1]| - 1] == prior;
    LoopSpec(ws, sessionId, userId, inbox);
    if LoopExit(inbox) == Closed {
      var all := prior + h;
      assert all[|all| - 1] == Disconnect(ws);
    }
  }

  /** As written, a frame that fails validation escapes the handler (only
      WebSocketDisconnect is caught), so after a successful catch-up the
      socket stays in the registry although the handler is gone. */
  lemma CrashLeavesSocketRegistered(prior: seq<Call>, ws: nat, sessionId: string, userId: string, inbox: seq<Inbound>)
    requires LoopExit(inbox) == Crashed
    ensures Registered(prior + HandlerTrace(ws, sessionId, userId, true, inbox), ws)
  {
    var loop := LoopTrace(ws, sessionId, userId, inbox);
    var head := prior + [Connect(ws, sessionId, userId), CatchUp(ws, sessionId, userId)];
    LoopSpec(ws, sessionId, userId, inbox);
    assert head[..|head| - 1][..|head| - 2] == prior;
    assert prior + HandlerTrace(ws, sessionId, userId, true, inbox) == head + loop;
    RegisteredPastAppends(head, loop, ws);
  }

  /** The loop with the validation error caught per frame: an invalid frame
      is dropped and the loop goes on. */
  function TolerantLoopTrace(ws: nat, sessionId: string, userId: string, inbox: seq<Inbound>): seq<Call> {
    if inbox == [] then []
    else match inbox[0]
      case PeerClosed => [Disconnect(ws)]
      case Frame(None) => TolerantLoopTrace(ws, sessionId, userId, inbox[1..])
      case Frame(Some(m)) => [Append(sessionId, userId, m)] + TolerantLoopTrace(ws, sessionId, userId, inbox[1..])
  }

  /** With invalid frames dropped, the loop ends only on a peer close, and
      that close always takes the socket out of the registry: no path leaves
      a stale entry for a finished handler. */
  lemma {:induction false} TolerantLoopNeverStale(prior: seq<Call>, ws: nat, sessionId: string, userId: string, inbox: seq<Inbound>)
    requires PeerClosed in inbox
    decreases |inbox|
    ensures !Registered(prior + TolerantLoopTrace(ws, sessionId, userId, inbox), ws)
    ensures forall j :: 0 <= j < |TolerantLoopTrace(ws, sessionId, userId, inbox)| - 1 ==>
      TolerantLoopTrace(ws, sessionId, userId, inbox)[j].Append?
  {
    var t := TolerantLoopTrace(ws, sessionId, userId, inbox);
    if inbox[0].Frame? {
      assert PeerClosed in inbox[1..] by {
        var k :| 0 <= k < |inbox| && inbox[k] == PeerClosed;
        assert inbox[1..][k - 1] == PeerClosed;
      }
      var rest := TolerantLoopTrace(ws, sessionId, userId, inbox[1..]);
      if inbox[0].parsed.Some? {
        TolerantLoopNeverStale(prior + [t[0]], ws, sessionId, userId, inbox[1..]);
        assert prior + t == (prior + [t[0]]) + rest;
      } else {
        TolerantLoopNeverStale(prior, ws, sessionId, userId, inbox[1..]);
      }
    } else {
      var all := prior + t;
      assert all[|all| - 1] == Disconnect(ws);
    }
  }

  /** The record of the handler's collaborator calls. */
  class Collaborators {
    var calls: seq<Call>

    constructor ()
      ensures calls == []
    {
      calls := [];
    }
  }

  /** `ws_session`: register the socket, catch it up (`caughtUp` is the
      catch-up's outcome), disconnect on failure without returning, then
      receive, validate and append until the peer closes or a frame fails
      validation; `inbox` is what `receive_json` will deliver. */
  method WsSession(env: Collaborators, ws: nat, sessionId: string, userId: string, caughtUp: bool, inbox: seq<Inbound>)
    returns (exit: Exit)
    modifies env
    ensures env.calls == old(env.calls) + HandlerTrace(ws, sessionId, userId, caughtUp, inbox)
    ensures exit == LoopExit(inbox)
  {
    env.calls := env.calls + [Connect(ws, sessionId, userId)];
    env.calls := env.calls + [CatchUp(ws, sessionId, userId)];
    if !caughtUp {
      env.calls := env.calls + [Disconnect(ws)];
    }
    var i := 0;
    while i < |inbox|
      invariant 0 <= i <= |inbox|
      invariant env.calls + LoopTrace(ws, sessionId, userId, inbox[i..])
             == old(env.calls) + HandlerTrace(ws, sessionId, userId, caughtUp, inbox)
      invariant LoopExit(inbox[i..]) == LoopExit(inbox)
    {
      match inbox[i]
      case PeerClosed =>
        env.calls := env.calls + [Disconnect(ws)];
        return Closed;
      case Frame(None) =>
        return Crashed;
      case Frame(Some(m)) =>
        assert inbox[i..][1..] == inbox[i + 1..];
        env.calls := env.calls + [Append(sessionId, userId, m)];
      i := i + 1;
    }
    exit := Waiting;
  }
}
