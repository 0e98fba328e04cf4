/**
 The content of an audit event and its dictionary form, which is what both parties sign. The
 fields are JSON values and not text: an event rebuilt from received content keeps what it found.
 */
module AuditEvent {
  import opened Wrappers
  import opened Json
  import opened Python

  datatype AuditEvent = AuditEvent(
    typ: Json, tokenJti: Json, delegatorId: Json, delegateeId: Json,
    fields: map<string, Json>, eventId: Json, ts: int)

  /** An event of the agent's own, about a token whose jti it may have read from that token. */
  function OwnEvent(typ: string, tokenJti: Json, delegatorId: string, delegateeId: string,
                    fields: map<string, Json>, eventId: string, ts: Int64): AuditEvent
  {
    AuditEvent(JStr(typ), tokenJti, JStr(delegatorId), JStr(delegateeId), fields, JStr(eventId), ts)
  }

  function Content(e: AuditEvent): Json {
    JObj(map[
      "event_id" := e.eventId,
      "ts" := JInt(e.ts),
      "type" := e.typ,
      "token_jti" := e.tokenJti,
      "delegator_id" := e.delegatorId,
      "delegatee_id" := e.delegateeId,
      "fields" := JObj(e.fields)])
  }

  /** `content.get(key)`. */
  function GetOrNull(content: Json, key: string): Json {
    match content.Get(key)
    case None => JNull
    case Some(v) => v
  }

  /** `AuditEvent.from_content`: unknown keys are dropped, absent optional ones filled in, ts converted. */
  function FromContent(content: Json): Option<AuditEvent> {
    var typ :- content.Get("type");
    var eventId :- content.Get("event_id");
    var rawTs :- content.Get("ts");
    var ts :- IntOf(rawTs);
    var fields :- DictOf(content.Get("fields"));
    Some(AuditEvent(typ, GetOrNull(content, "token_jti"), GetOrNull(content, "delegator_id"),
                    GetOrNull(content, "delegatee_id"), fields, eventId, ts))
  }

  // ---- Columns ----

  /** The row's key: text, a numeral, or NULL, which SQLite lets a TEXT primary key be. */
  function KeyOf(e: AuditEvent): Option<string> {
    ColumnOf(e.eventId)
  }

  /** The key of the event with this content. */
  function IdOf(content: Json): Option<string> {
    var id :- content.Get("event_id");
    ColumnOf(id)
  }

  function TypeOf(e: AuditEvent): string {
    match ColumnOf(e.typ)
    case None => ""
    case Some(s) => s
  }

  /** SQLite takes the row: every parameter can be bound and the type is not NULL. */
  predicate Storable(e: AuditEvent) {
    Bindable(e.eventId) && InInt64(e.ts) && Bindable(e.typ) && !e.typ.JNull? && Bindable(e.tokenJti)
  }

  lemma OwnColumns(typ: string, tokenJti: Json, delegatorId: string, delegateeId: string,
                   fields: map<string, Json>, eventId: string, ts: Int64)
    ensures var e := OwnEvent(typ, tokenJti, delegatorId, delegateeId, fields, eventId, ts);
            KeyOf(e) == Some(eventId) && TypeOf(e) == typ && (Storable(e) <==> Bindable(tokenJti))
  {
  }

  const KEYS: set<string> := {"event_id", "ts", "type", "token_jti", "delegator_id", "delegatee_id", "fields"}

  lemma FromContentOfContent(e: AuditEvent)
    ensures FromContent(Content(e)) == Some(e)
  {
    var c := Content(e);
    assert c.Get("token_jti") == Some(e.tokenJti) && c.Get("delegator_id") == Some(e.delegatorId);
    assert c.Get("delegatee_id") == Some(e.delegateeId) && c.Get("fields") == Some(JObj(e.fields));
    assert c.Get("ts") == Some(JInt(e.ts)) && c.Get("type") == Some(e.typ) && c.Get("event_id") == Some(e.eventId);
  }

  lemma ContentInjective(e: AuditEvent, f: AuditEvent)
    requires Content(e) == Content(f)
    ensures e == f
  {
    FromContentOfContent(e);
    FromContentOfContent(f);
  }

  /**
   Rebuilding an event from received content keeps that content unchanged exactly when it has
   the seven keys, no others, an integer for ts and a dictionary of fields. Other content is
   converted or cut down, so a peer signature over it does not verify against the rebuilt event.
   */
  lemma ContentOfFromContent(content: Json)
    requires FromContent(content).Some?
    ensures Content(FromContent(content).value) == content <==>
            content.members.Keys == KEYS && content.members["ts"].JInt? && content.members["fields"].JObj?
  {
    var e := FromContent(content).value;
    var c := Content(e);
    assert c.members.Keys == KEYS;
    assert c.members["fields"].JObj? && c.members["ts"].JInt?;
    if content.members.Keys == KEYS && content.members["ts"].JInt? && content.members["fields"].JObj? {
      assert "token_jti" in content.members.Keys && "delegator_id" in content.members.Keys;
      assert "delegatee_id" in content.members.Keys;
      forall k | k in KEYS
        ensures c.members[k] == content.members[k]
      {
      }
      assert c.members == content.members;
    }
  }
}
