/** The records of backend/src/data.py: a question status, a chat message and a
    session, with the defaults pydantic fills in when a session is built from
    keyword arguments. */
module Data {
  import opened Wrappers

  /** The errors the core can raise: a missing dictionary key (Python's
      KeyError) and a pydantic validation failure naming the missing
      required fields, in declaration order. */
  datatype Error = KeyError(key: string) | ValidationError(missing: seq<string>)

  datatype QuestionStatus = QuestionStatus(uuid: string, estimatedSeconds: int)

  /** A message carries its sender's display name, its text and its role flag,
      and nothing else: no author id and no timestamp. */
  datatype Message = Message(name: string, content: string, isAnswer: bool)

  /** A point in time as `datetime.now()` returns it (the time of day is kept
      as microseconds since midnight). */
  datatype DateTime = DateTime(year: int, month: int, day: int, microOfDay: int)

  datatype Session = Session(
    title: string,
    createdAt: string,
    createdTimestamp: DateTime,
    uuid: string,
    content: seq<Message>)

  /** The two creation stamps `Session` falls back on. Python evaluates the
      default expressions once, when the class is defined, so every session
      built without explicit stamps shares this one value. */
  datatype SessionDefaults = SessionDefaults(createdAt: string, createdTimestamp: DateTime)

  /** A field value of a message, as iterating a pydantic model yields it. */
  datatype FieldValue = Str(s: string) | Bool(b: bool)

  predicate IsLeapYear(y: int) {
    y % 4 == 0 && (y % 100 != 0 || y % 400 == 0)
  }

  function DaysInMonth(y: int, m: int): int
    requires 1 <= m <= 12
  {
    if m == 2 then (if IsLeapYear(y) then 29 else 28)
    else if m == 4 || m == 6 || m == 9 || m == 11 then 30
    else 31
  }

  /** The range `datetime` accepts (MINYEAR = 1, MAXYEAR = 9999). */
  predicate ValidDateTime(t: DateTime) {
    && 1 <= t.year <= 9999
    && 1 <= t.month <= 12
    && 1 <= t.day <= DaysInMonth(t.year, t.month)
    && 0 <= t.microOfDay < 86_400_000_000
  }

  function DigitChar(d: int): char
    requires 0 <= d <= 9
  {
    ('0' as int + d) as char
  }

  predicate IsDigit(c: char) {
    '0' <= c <= '9'
  }

  function DigitValue(c: char): int
    requires IsDigit(c)
  {
    c as int - '0' as int
  }

  /** `n` written in decimal with exactly `width` digits, zero-padded. */
  function Padded(n: nat, width: nat): (s: string)
    ensures |s| == width
    ensures forall i :: 0 <= i < |s| ==> IsDigit(s[i])
  {
    if width == 0 then [] else Padded(n / 10, width - 1) + [DigitChar(n % 10)]
  }

  /** The inverse of `Padded`: the value of a string of decimal digits. */
  function DecimalValue(s: string): nat
    requires forall i :: 0 <= i < |s| ==> IsDigit(s[i])
  {
    if s == [] then 0 else 10 * DecimalValue(s[..|s| - 1]) + DigitValue(s[|s| - 1])
  }

  function Pow10(k: nat): nat {
    if k == 0 then 1 else 10 * Pow10(k - 1)
  }

  lemma {:induction false} PaddedRoundTrip(n: nat, width: nat)
    requires n < Pow10(width)
    ensures DecimalValue(Padded(n, width)) == n
  {
    if width > 0 {
      var s := Padded(n, width);
      assert s[..|s| - 1] == Padded(n / 10, width - 1);
      PaddedRoundTrip(n / 10, width - 1);
    }
  }

  /** The `YYYY-MM-DD` shape of `strftime("%Y-%m-%d")`. */
  predicate IsIsoDate(s: string) {
    && |s| == 10
    && s[4] == '-' && s[7] == '-'
    && (forall i :: 0 <= i < 10 && i != 4 && i != 7 ==> IsDigit(s[i]))
  }

  /** `datetime.strftime("%Y-%m-%d")`. */
  function StrftimeDate(t: DateTime): string
    requires ValidDateTime(t)
  {
    Padded(t.year, 4) + "-" + Padded(t.month, 2) + "-" + Padded(t.day, 2)
  }

  /** Reads a `YYYY-MM-DD` string back into (year, month, day). */
  function ParseIsoDate(s: string): Option<(int, int, int)> {
    if IsIsoDate(s) then
      Some((DecimalValue(s[..4]), DecimalValue(s[5..7]), DecimalValue(s[8..])))
    else None
  }

  /** The date string has the `YYYY-MM-DD` shape and reads back as the date
      of `t`. */
  lemma DateStringRoundTrip(t: DateTime)
    requires ValidDateTime(t)
    ensures IsIsoDate(StrftimeDate(t))
    ensures ParseIsoDate(StrftimeDate(t)) == Some((t.year, t.month, t.day))
  {
    var s := StrftimeDate(t);
    assert s[..4] == Padded(t.year, 4);
    assert s[5..7] == Padded(t.month, 2);
    assert s[8..] == Padded(t.day, 2);
    assert Pow10(2) == 100 && Pow10(4) == 10000 by {
      assert Pow10(1) == 10;
      assert Pow10(3) == 1000;
    }
    PaddedRoundTrip(t.year, 4);
    PaddedRoundTrip(t.month, 2);
    PaddedRoundTrip(t.day, 2);
  }

  /** The class-definition-time defaults. The two default expressions read
      the clock separately, once each at import: `dateClock` for
      `created_at`, `stampClock` for `created_timestamp`. */
  function ClassDefaults(dateClock: DateTime, stampClock: DateTime): (d: SessionDefaults)
    requires ValidDateTime(dateClock)
    ensures IsIsoDate(d.createdAt)
    ensures ParseIsoDate(d.createdAt) == Some((dateClock.year, dateClock.month, dateClock.day))
    ensures d.createdTimestamp == stampClock
  {
    DateStringRoundTrip(dateClock);
    SessionDefaults(StrftimeDate(dateClock), stampClock)
  }

  /** `Session(**kwargs)`: each argument is present (`Some`) or omitted
      (`None`). `title` and `uuid` have no default, so omitting either is a
      validation error listing the missing fields; the stamps fall back on the
      class defaults and `content` on a fresh empty list. */
  function BuildSession(
    defaults: SessionDefaults,
    title: Option<string>,
    createdAt: Option<string>,
    createdTimestamp: Option<DateTime>,
    uuid: Option<string>,
    content: Option<seq<Message>>): (r: Result<Session, Error>)
    ensures r.Success? <==> title.Some? && uuid.Some?
    ensures r.Failure? ==>
      r.error == ValidationError((if title.None? then ["title"] else []) + (if uuid.None? then ["uuid"] else []))
    ensures r.Success? ==> r.value.title == title.value && r.value.uuid == uuid.value
    ensures r.Success? && content.None? ==> r.value.content == []
    ensures r.Success? && content.Some? ==> r.value.content == content.value
    ensures r.Success? && createdAt.None? ==> r.value.createdAt == defaults.createdAt
    ensures r.Success? && createdTimestamp.None? ==> r.value.createdTimestamp == defaults.createdTimestamp
    ensures r.Success? && createdAt.Some? ==> r.value.createdAt == createdAt.value
    ensures r.Success? && createdTimestamp.Some? ==> r.value.createdTimestamp == createdTimestamp.value
  {
    if title.None? || uuid.None? then
      Failure(ValidationError((if title.None? then ["title"] else []) + (if uuid.None? then ["uuid"] else [])))
    else
      Success(Session(
        title.value,
        match createdAt case Some(a) => a case None => defaults.createdAt,
        match createdTimestamp case Some(t) => t case None => defaults.createdTimestamp,
        uuid.value,
        match content case Some(c) => c case None => []))
  }

  /** Two sessions built without explicit stamps carry the same creation
      stamps, however far apart they were built. */
  lemma DefaultStampsShared(
    defaults: SessionDefaults, title1: string, uuid1: string, title2: string, uuid2: string)
    ensures BuildSession(defaults, Some(title1), None, None, Some(uuid1), None).Success?
    ensures BuildSession(defaults, Some(title2), None, None, Some(uuid2), None).Success?
    ensures var s1 := BuildSession(defaults, Some(title1), None, None, Some(uuid1), None).value;
            var s2 := BuildSession(defaults, Some(title2), None, None, Some(uuid2), None).value;
            s1.createdAt == s2.createdAt && s1.createdTimestamp == s2.createdTimestamp && s1.content == s2.content == []
  {
  }

  /** Iterating a pydantic model: its (field name, value) pairs in declaration
      order. */
  function Fields(m: Message): (f: seq<(string, FieldValue)>)
    ensures |f| == 3
  {
    [("name", Str(m.name)), ("content", Str(m.content)), ("is_answer", Bool(m.isAnswer))]
  }

  function FieldLookup(pairs: seq<(string, FieldValue)>, key: string): Option<FieldValue> {
    if pairs == [] then None
    else if pairs[0].0 == key then Some(pairs[0].1)
    else FieldLookup(pairs[1..], key)
  }

  /** `Message.model_validate` of a mapping: the three fields must be present
      with the right kinds; other keys are ignored. */
  function MessageFromFields(pairs: seq<(string, FieldValue)>): Option<Message> {
    match (FieldLookup(pairs, "name"), FieldLookup(pairs, "content"), FieldLookup(pairs, "is_answer"))
    case (Some(Str(n)), Some(Str(c)), Some(Bool(a))) => Some(Message(n, c, a))
    case _ => None
  }

  /** A message is exactly its three fields: validating its field pairs gives
      it back, and the pairs name `name`, `content` and `is_answer` only. */
  lemma MessageFieldsRoundTrip(m: Message)
    ensures MessageFromFields(Fields(m)) == Some(m)
    ensures forall i :: 0 <= i < |Fields(m)| ==> Fields(m)[i].0 in {"name", "content", "is_answer"}
  {
    var f := Fields(m);
    assert FieldLookup(f, "name") == Some(Str(m.name));
    assert f[1..][0].0 == "content" && "content" != "name";
    assert FieldLookup(f, "content") == Some(Str(m.content));
    assert f[1..][1..][0].0 == "is_answer" && "is_answer" != "content" && "is_answer" != "name";
    assert FieldLookup(f[1..], "is_answer") == FieldLookup(f[1..][1..], "is_answer");
    assert FieldLookup(f, "is_answer") == Some(Bool(m.isAnswer));
  }
}
