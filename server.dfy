/** backend/src/server.py: the submit endpoint, which fetches a session,
    appends one message to it and writes it back. */
module Server {
  import opened Wrappers
  import opened Data
  import opened Service

  /** An element of a Python list. The session's `content` is declared to hold
      messages, but `+=` can put other objects in it. */
  datatype Item = Msg(message: Message) | Pair(field: string, value: FieldValue)

  function Lift(content: seq<Message>): (r: seq<Item>)
    ensures |r| == |content|
    ensures forall i :: 0 <= i < |r| ==> r[i] == Msg(content[i])
  {
    seq(|content|, i requires 0 <= i < |content| => Msg(content[i]))
  }

  /** `content += Message(...)` as written: `list.__iadd__` extends the list
      with whatever iterating its operand yields, and a pydantic model yields
      its (field name, value) pairs. */
  function ExtendWithModel(content: seq<Item>, m: Message): seq<Item> {
    content + seq(3, i requires 0 <= i < 3 => Pair(Fields(m)[i].0, Fields(m)[i].1))
  }

  /** The statement as its comment describes it: append one message. */
  function AppendMessage(content: seq<Item>, m: Message): seq<Item> {
    content + [Msg(m)]
  }

  /** Under the literal semantics the content grows by three field pairs and
      the message itself never lands in it; appending grows it by one and
      ends it with the message. */
  lemma InPlaceAddExtendsWithFields(content: seq<Message>, m: Message)
    ensures |ExtendWithModel(Lift(content), m)| == |content| + 3
    ensures ExtendWithModel(Lift(content), m)[..|content|] == Lift(content)
    ensures ExtendWithModel(Lift(content), m)[|content|..] ==
            [Pair("name", Str(m.name)), Pair("content", Str(m.content)), Pair("is_answer", Bool(m.isAnswer))]
    ensures Msg(m) !in ExtendWithModel(Lift(content), m)[|content|..]
    ensures AppendMessage(Lift(content), m) == Lift(content + [m])
  {
  }

  /** `submit`, with the append the comment intends: look the session up
      (a falsy uuid takes the create path, which fails validation), add one
      message at the end, and upsert it. A failure writes nothing. */
  method Submit(store: SessionStore, msg: string, source: string, isAnswer: bool, uuid: Option<string>, freshId: string)
    returns (r: Result<Session, Error>)
    requires store.Valid()
    modifies store
    ensures store.Valid()
    ensures r.Success? <==> uuid.Some? && uuid.value != "" && uuid.value in old(store.storage)
    ensures r.Success? ==>
      var before := old(store.storage)[uuid.value];
      && r.value == before.(content := before.content + [Message(source, msg, isAnswer)])
      && store.storage == old(store.storage)[uuid.value := r.value]
    ensures r.Failure? ==>
      r.error == (if uuid.None? || uuid.value == "" then ValidationError(["title"]) else KeyError(uuid.value))
    ensures r.Failure? ==> store.storage == old(store.storage)
    ensures store.order == old(store.order)
  {
    var got := store.GetOrCreate(uuid, freshId);
    if got.Failure? {
      return Failure(got.error);
    }
    var session := got.value;
    session := session.(content := session.content + [Message(source, msg, isAnswer)]);
    var written := store.WriteSession(session);
    r := Success(written);
  }
}
