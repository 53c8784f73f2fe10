/** backend/src/service.py: the module-level `storage` dictionary from uuid to
    session, with point lookup, list-all, get-or-create and upsert. */
module Service {
  import opened Wrappers
  import opened Data

  predicate Distinct(keys: seq<string>) {
    forall i, j :: 0 <= i < j < |keys| ==> keys[i] != keys[j]
  }

  /** `order` lists the keys of `storage` once each, in the order a Python
      dict remembers them (first insertion). */
  ghost predicate Indexes(order: seq<string>, storage: map<string, Session>) {
    Distinct(order) && forall k :: k in storage <==> k in order
  }

  /** The key order after `storage[key] = ...`: a new key goes to the end,
      an existing key keeps its place. */
  function WriteOrder(order: seq<string>, key: string): seq<string> {
    if key in order then order else order + [key]
  }

  lemma {:induction false} IndexedLength(order: seq<string>, storage: map<string, Session>)
    requires Indexes(order, storage)
    ensures |order| == |storage|
  {
    if order != [] {
      var last := order[|order| - 1];
      var rest := storage - {last};
      assert Indexes(order[..|order| - 1], rest) by {
        forall k ensures k in rest <==> k in order[..|order| - 1] {
          if k in order && k != last {
            var j :| 0 <= j < |order| && order[j] == k;
            assert j < |order| - 1;
          }
          if k in order[..|order| - 1] {
            var j :| 0 <= j < |order| - 1 && order[j] == k;
            assert k != last;
          }
        }
      }
      IndexedLength(order[..|order| - 1], rest);
      assert rest.Keys == storage.Keys - {last};
    }
  }

  /** An upsert keeps the key list an index of the dictionary. */
  lemma WriteKeepsIndex(order: seq<string>, storage: map<string, Session>, session: Session)
    requires Indexes(order, storage)
    ensures Indexes(WriteOrder(order, session.uuid), storage[session.uuid := session])
  {
  }

  /** Writing two sessions with the same uuid leaves one entry, at the place
      the first write gave it, holding the later session; every other key is
      as it was. */
  lemma UpsertTwice(order: seq<string>, storage: map<string, Session>, first: Session, second: Session)
    requires Indexes(order, storage)
    requires first.uuid == second.uuid
    ensures WriteOrder(WriteOrder(order, first.uuid), second.uuid) == WriteOrder(order, second.uuid)
    ensures storage[first.uuid := first][second.uuid := second] == storage[second.uuid := second]
    ensures var o := WriteOrder(order, second.uuid);
            exists i :: 0 <= i < |o| && o[i] == second.uuid && forall j :: 0 <= j < |o| && j != i ==> o[j] != second.uuid
  {
  }

  class SessionStore {
    var storage: map<string, Session>
    /** The keys of `storage` in insertion order, which `storage.values()`
        follows. */
    var order: seq<string>
    /** The defaults of the `Session` class, fixed when it was defined. */
    const defaults: SessionDefaults

    /** Every session is filed under its own uuid, `order` indexes the
        dictionary, and the default creation date is a `YYYY-MM-DD` string. */
    ghost predicate Valid()
      reads this
    {
      && IsIsoDate(defaults.createdAt)
      && Indexes(order, storage)
      && forall k :: k in storage ==> storage[k].uuid == k
    }

    /** The module is imported after the `Session` class was defined with the
        clock readings `dateClock` and `stampClock`. */
    constructor (dateClock: DateTime, stampClock: DateTime)
      requires ValidDateTime(dateClock)
      ensures Valid()
      ensures storage == map[] && order == []
      ensures defaults == ClassDefaults(dateClock, stampClock)
    {
      storage := map[];
      order := [];
      defaults := ClassDefaults(dateClock, stampClock);
    }

    /** `get_only`: the stored session, or a KeyError when none is stored under
        `uuid`. */
    method GetOnly(uuid: string) returns (r: Result<Session, Error>)
      ensures uuid in storage ==> r == Success(storage[uuid])
      ensures uuid !in storage ==> r == Failure(KeyError(uuid))
    {
      if uuid in storage {
        r := Success(storage[uuid]);
      } else {
        r := Failure(KeyError(uuid));
      }
    }

    /** `get_sessions`: one element per stored key, in insertion order. */
    method GetSessions() returns (sessions: seq<Session>)
      requires Valid()
      ensures |sessions| == |order| == |storage|
      ensures forall i :: 0 <= i < |sessions| ==> sessions[i] == storage[order[i]]
      ensures forall k :: k in storage ==> storage[k] in sessions
      ensures forall s :: s in sessions ==> s.uuid in storage && storage[s.uuid] == s
    {
      sessions := [];
      var i := 0;
      while i < |order|
        invariant 0 <= i <= |order|
        invariant |sessions| == i
        invariant forall j :: 0 <= j < i ==> sessions[j] == storage[order[j]]
      {
        sessions := sessions + [storage[order[i]]];
        i := i + 1;
      }
      IndexedLength(order, storage);
      forall k | k in storage
        ensures storage[k] in sessions
      {
        var j :| 0 <= j < |order| && order[j] == k;
        assert sessions[j] == storage[k];
      }
    }

    /** `get_or_create`: a non-empty uuid is looked up (KeyError when absent);
        `None` or `""` builds `Session(uuid=fresh)`, which pydantic rejects
        because `title` is required, so that path never yields a session. */
    method GetOrCreate(uuid: Option<string>, freshId: string) returns (r: Result<Session, Error>)
      ensures uuid.Some? && uuid.value != "" && uuid.value in storage ==> r == Success(storage[uuid.value])
      ensures uuid.Some? && uuid.value != "" && uuid.value !in storage ==> r == Failure(KeyError(uuid.value))
      ensures uuid.None? || uuid.value == "" ==> r == Failure(ValidationError(["title"]))
    {
      if uuid.Some? && uuid.value != "" {
        r := GetOnly(uuid.value);
      } else {
        r := BuildSession(defaults, None, None, None, Some(freshId), None);
        assert ["title"] + [] == ["title"];
      }
    }

    /** `write_session`: an upsert under the session's own uuid that returns
        the session it was given. */
    method WriteSession(session: Session) returns (r: Session)
      requires Valid()
      modifies this
      ensures Valid()
      ensures r == session
      ensures storage == old(storage)[session.uuid := session]
      ensures order == WriteOrder(old(order), session.uuid)
      ensures forall k :: k != session.uuid ==> (k in storage <==> k in old(storage))
      ensures forall k :: k != session.uuid && k in storage ==> storage[k] == old(storage)[k]
    {
      WriteKeepsIndex(order, storage, session);
      storage := storage[session.uuid := session];
      order := WriteOrder(order, session.uuid);
      r := session;
    }
  }
}
