/**
  * src/infrastructure/audit/integrity.py: the bytes that a row's MAC covers.
  * HMAC-SHA256 is any function from a key and a message to 32 bytes; nothing is assumed of it.
  */
module Integrity {
  import opened Basics
  import Utf8
  import Json

  const MAC_SIZE := 32

  type Mac = m: Bytes | |m| == MAC_SIZE witness seq(MAC_SIZE, _ => 0)

  type Key = k: Bytes | |k| == MAC_SIZE witness seq(MAC_SIZE, _ => 0)

  type MacFunction = (Key, Bytes) -> Mac

  const GENESIS_MAC: Mac :=
    [0, 0, 0, 0, 0, 0, 0, 0, 0, 0, 0, 0, 0, 0, 0, 0,
     0, 0, 0, 0, 0, 0, 0, 0, 0, 0, 0, 0, 0, 0, 0, 0]

  /** The eight serialized fields of an audit event. */
  datatype Record = Record(
    id: string,
    timestamp: string,
    eventType: string,
    actorUserId: string,
    targetId: string,
    sessionId: Option<string>,
    result: string,
    reasonCode: Option<string>)

  function OptionalScalar(t: Option<string>): Json.Scalar {
    match t
    case None => Json.Null
    case Some(s) => Json.Str(s)
  }

  function Fields(sequenceNo: int, r: Record): seq<Json.Field> {
    [ Json.Field("sequence_no", Json.Number(sequenceNo)),
      Json.Field("id", Json.Str(r.id)),
      Json.Field("timestamp", Json.Str(r.timestamp)),
      Json.Field("event_type", Json.Str(r.eventType)),
      Json.Field("actor_user_id", Json.Str(r.actorUserId)),
      Json.Field("target_id", Json.Str(r.targetId)),
      Json.Field("session_id", OptionalScalar(r.sessionId)),
      Json.Field("result", Json.Str(r.result)),
      Json.Field("reason_code", OptionalScalar(r.reasonCode)) ]
  }

  function CanonicalEventBytes(sequenceNo: int, r: Record): Bytes {
    Utf8.Encode(Json.PrintDocument(Fields(sequenceNo, r)))
  }

  /** What the MAC of a row is computed over. */
  function Message(sequenceNo: int, r: Record, previousMac: Mac): Bytes {
    CanonicalEventBytes(sequenceNo, r) + previousMac
  }

  function CalculateEventMac(hmac: MacFunction, key: Key, canonical: Bytes, previousMac: Mac): Mac {
    hmac(key, canonical + previousMac)
  }

  // ---------------------------------------------------------------- reading a message back

  function RequiredText(v: Json.Scalar): Option<string> {
    if v.Str? then Some(v.text) else None
  }

  function OptionalText(v: Json.Scalar): Option<Option<string>> {
    if v.Null? then Some(None) else if v.Str? then Some(Some(v.text)) else None
  }

  function DecodeFields(fs: seq<Json.Field>): Option<(int, Record)> {
    if |fs| != 9 || !fs[0].value.Number? then None
    else
      var id :- RequiredText(fs[1].value);
      var timestamp :- RequiredText(fs[2].value);
      var eventType :- RequiredText(fs[3].value);
      var actor :- RequiredText(fs[4].value);
      var target :- RequiredText(fs[5].value);
      var session :- OptionalText(fs[6].value);
      var result :- RequiredText(fs[7].value);
      var reason :- OptionalText(fs[8].value);
      Some((fs[0].value.n, Record(id, timestamp, eventType, actor, target, session, result, reason)))
  }

  function DecodeMessage(m: Bytes): Option<(int, Record, Mac)> {
    if |m| < MAC_SIZE then None
    else
      var text :- Utf8.Decode(m[..|m| - MAC_SIZE]);
      var fields :- Json.ParseDocument(text);
      var (n, r) :- DecodeFields(fields);
      Some((n, r, m[|m| - MAC_SIZE..]))
  }

  lemma DecodeFieldsRoundTrip(n: int, r: Record)
    ensures DecodeFields(Fields(n, r)) == Some((n, r))
  {
  }

  /**
    * The authenticated message determines the sequence number, all eight fields and the previous
    * MAC: null stays apart from the string "null", and escaped characters come back unchanged.
    */
  lemma MessageRoundTrip(n: int, r: Record, previousMac: Mac)
    ensures DecodeMessage(Message(n, r, previousMac)) == Some((n, r, previousMac))
  {
    hide Utf8.Encode, Utf8.Decode, Json.PrintDocument, Json.ParseDocument, Fields, DecodeFields;
    var canonical, m := CanonicalEventBytes(n, r), Message(n, r, previousMac);
    assert m[..|m| - MAC_SIZE] == canonical && m[|m| - MAC_SIZE..] == previousMac;
    Utf8.DecodeIffEncode(canonical, Json.PrintDocument(Fields(n, r)));
    Json.DocumentRoundTrip(Fields(n, r));
    DecodeFieldsRoundTrip(n, r);
  }

  /** Two rows authenticate the same bytes only when they agree on everything authenticated. */
  lemma MessageInjective(n: int, r: Record, p: Mac, n': int, r': Record, p': Mac)
    ensures Message(n, r, p) == Message(n', r', p') <==> n == n' && r == r' && p == p'
  {
    MessageRoundTrip(n, r, p);
    MessageRoundTrip(n', r', p');
  }

  // ---------------------------------------------------------------- the authenticated text

  /** The canonical bytes are UTF-8 JSON that names each value: these nine names, in this order. */
  lemma CanonicalNamesEachValue(n: int, r: Record)
    ensures var text := Utf8.Decode(CanonicalEventBytes(n, r));
            text.Some? && Json.ParseDocument(text.value) == Some([
              Json.Field("sequence_no", Json.Number(n)),
              Json.Field("id", Json.Str(r.id)),
              Json.Field("timestamp", Json.Str(r.timestamp)),
              Json.Field("event_type", Json.Str(r.eventType)),
              Json.Field("actor_user_id", Json.Str(r.actorUserId)),
              Json.Field("target_id", Json.Str(r.targetId)),
              Json.Field("session_id", if r.sessionId.None? then Json.Null else Json.Str(r.sessionId.value)),
              Json.Field("result", Json.Str(r.result)),
              Json.Field("reason_code", if r.reasonCode.None? then Json.Null else Json.Str(r.reasonCode.value))])
  {
    hide Utf8.Encode, Utf8.Decode, Json.PrintDocument, Json.ParseDocument;
    Utf8.DecodeIffEncode(CanonicalEventBytes(n, r), Json.PrintDocument(Fields(n, r)));
    Json.DocumentRoundTrip(Fields(n, r));
  }

  /** A compact field: its name and its printed value. */
  function FieldText(name: string, value: string): string {
    "[\"" + name + "\"," + value + "]"
  }

  function OptionalValueText(t: Option<string>): string {
    if t.None? then "null" else "\"" + t.value + "\""
  }

  lemma PlainFieldText(name: string, v: Json.Scalar)
    requires Json.AllPlain(name) && (v.Str? ==> Json.AllPlain(v.text))
    ensures Json.PrintField(Json.Field(name, v)) ==
            FieldText(name, match v
                            case Number(n) => Json.Decimal(n)
                            case Str(t) => "\"" + t + "\""
                            case Null => "null")
  {
    hide Json.Quote, Json.Decimal;
    Json.PlainQuotes(name);
    if v.Str? {
      Json.PlainQuotes(v.text);
    }
  }

  lemma MoreTexts(f: Json.Field, fs: seq<Json.Field>)
    ensures Json.PrintMore([f] + fs) == "," + Json.PrintField(f) + Json.PrintMore(fs)
  {
    hide Json.PrintField;
  }

  function TextFields(r: Record): seq<(string, Option<string>)> {
    [("id", Some(r.id)), ("timestamp", Some(r.timestamp)), ("event_type", Some(r.eventType)),
     ("actor_user_id", Some(r.actorUserId)), ("target_id", Some(r.targetId)), ("session_id", r.sessionId),
     ("result", Some(r.result)), ("reason_code", r.reasonCode)]
  }

  /** Compact texts of named values, each after a comma. */
  function TextsAfterComma(fs: seq<(string, Option<string>)>): string {
    if fs == [] then "" else "," + FieldText(fs[0].0, OptionalValueText(fs[0].1)) + TextsAfterComma(fs[1..])
  }

  ghost predicate PlainFields(fs: seq<(string, Option<string>)>) {
    forall i :: 0 <= i < |fs| ==> Json.AllPlain(fs[i].0) && (fs[i].1.Some? ==> Json.AllPlain(fs[i].1.value))
  }

  function ScalarFields(fs: seq<(string, Option<string>)>): (r: seq<Json.Field>)
    ensures |r| == |fs| && forall i :: 0 <= i < |fs| ==> r[i] == Json.Field(fs[i].0, OptionalScalar(fs[i].1))
  {
    seq(|fs|, i requires 0 <= i < |fs| => Json.Field(fs[i].0, OptionalScalar(fs[i].1)))
  }

  lemma {:induction false} PlainTexts(fs: seq<(string, Option<string>)>)
    requires PlainFields(fs)
    ensures Json.PrintMore(ScalarFields(fs)) == TextsAfterComma(fs)
  {
    hide Json.PrintField, FieldText, Json.AllPlain;
    if fs != [] {
      PlainTexts(fs[1..]);
      var all := ScalarFields(fs);
      assert all == [all[0]] + ScalarFields(fs[1..]);
      MoreTexts(all[0], ScalarFields(fs[1..]));
      PlainFieldText(fs[0].0, OptionalScalar(fs[0].1));
    }
  }

  lemma NamesArePlain()
    ensures Json.AllPlain("sequence_no")
    ensures Json.AllPlain("id") && Json.AllPlain("timestamp") && Json.AllPlain("event_type")
    ensures Json.AllPlain("actor_user_id") && Json.AllPlain("target_id") && Json.AllPlain("session_id")
    ensures Json.AllPlain("result") && Json.AllPlain("reason_code")
  {
  }

  /**
    * Where nothing needs an escape, the authenticated text is literally
    * `[["sequence_no",N],["id","..."],...,["reason_code",...]]`: no spaces, names in this order,
    * null for an absent session or reason.
    */
  lemma CanonicalText(n: int, r: Record)
    requires PlainFields(TextFields(r))
    ensures Utf8.Decode(CanonicalEventBytes(n, r)) ==
            Some("[" + FieldText("sequence_no", Json.Decimal(n)) + TextsAfterComma(TextFields(r)) + "]")
  {
    hide Utf8.Encode, Utf8.Decode, Json.PrintField, Json.PrintMore, Json.Decimal;
    hide TextsAfterComma, FieldText, Json.AllPlain;
    Utf8.DecodeIffEncode(CanonicalEventBytes(n, r), Json.PrintDocument(Fields(n, r)));
    NamesArePlain();
    PlainFieldText("sequence_no", Json.Number(n));
    PlainTexts(TextFields(r));
    assert Fields(n, r)[1..] == ScalarFields(TextFields(r));
  }
}
