/**
 * Per-session progress tracking: `POST /session` stores the body's `lastStroke`
 * and `context` on the caller's session record, `GET /session` answers with each
 * field, or `null` when the field is falsy.
 */
module ProgressSession {
  import opened Js

  /** The session layer's identifier of a caller's session. */
  type SessionId = string

  /** A parsed JSON request body: its fields by name. A missing field reads as undefined. */
  type Body = map<string, Value>

  /** The two fields the handlers keep on a session record. */
  datatype Record = Record(lastStroke: Value, context: Value)

  /** A session the handlers have never written to: both fields undefined. */
  const FRESH: Record := Record(Undefined, Undefined)

  /** The JSON answer of `GET /session`. */
  datatype Progress = Progress(lastStroke: Value, context: Value)

  /** Reading property `name` of the body, as destructuring does. */
  function Field(body: Body, name: string): Value
  {
    if name in body then body[name] else Undefined
  }

  /** The record of session `sid`, a fresh one when the handlers never wrote to it. */
  function RecordOf(records: map<SessionId, Record>, sid: SessionId): Record
  {
    if sid in records then records[sid] else FRESH
  }

  /** `GET /session` on the records: each stored field `|| null`. */
  function ReadProgress(records: map<SessionId, Record>, sid: SessionId): (p: Progress)
    ensures p.lastStroke == Null || !Falsy(p.lastStroke)
    ensures p.context == Null || !Falsy(p.context)
  {
    var rec := RecordOf(records, sid);
    OrNullNeverFalsy(rec.lastStroke);
    OrNullNeverFalsy(rec.context);
    Progress(Or(rec.lastStroke, Null), Or(rec.context, Null))
  }

  /** `POST /session` on the records: both fields of `sid` overwritten from the body. */
  function SaveProgress(records: map<SessionId, Record>, sid: SessionId, body: Body): (m: map<SessionId, Record>)
    ensures m.Keys == records.Keys + {sid}
    ensures RecordOf(m, sid) == Record(Field(body, "lastStroke"), Field(body, "context"))
    ensures forall other | other in records && other != sid :: m[other] == records[other]
  {
    records[sid := Record(Field(body, "lastStroke"), Field(body, "context"))]
  }

  /** A session that was never saved reads as two nulls. */
  lemma ReadUnsaved(records: map<SessionId, Record>, sid: SessionId)
    requires sid !in records
    ensures ReadProgress(records, sid) == Progress(Null, Null)
  {
  }

  /** Read after save: a truthy field comes back as saved, a falsy or missing one as null. */
  lemma ReadAfterSave(records: map<SessionId, Record>, sid: SessionId, body: Body)
    ensures var p := ReadProgress(SaveProgress(records, sid, body), sid);
      (p.lastStroke == if Falsy(Field(body, "lastStroke")) then Null else body["lastStroke"]) &&
      (p.context == if Falsy(Field(body, "context")) then Null else body["context"])
  {
  }

  /** A save leaves what every other session reads unchanged. */
  lemma SaveFrame(records: map<SessionId, Record>, sid: SessionId, body: Body, other: SessionId)
    requires other != sid
    ensures ReadProgress(SaveProgress(records, sid, body), other) == ReadProgress(records, other)
  {
  }

  /** A save replaces both fields: nothing of an earlier save to the same session survives. */
  lemma SaveOverwrites(records: map<SessionId, Record>, sid: SessionId, first: Body, second: Body)
    ensures SaveProgress(SaveProgress(records, sid, first), sid, second) == SaveProgress(records, sid, second)
  {
  }

  /** Saves to different sessions do not interfere: their order does not matter. */
  lemma SavesCommute(records: map<SessionId, Record>, s1: SessionId, b1: Body, s2: SessionId, b2: Body)
    requires s1 != s2
    ensures SaveProgress(SaveProgress(records, s1, b1), s2, b2) == SaveProgress(SaveProgress(records, s2, b2), s1, b1)
  {
  }

  /** The session layer's per-session records, written and read by the two handlers. */
  class SessionStore {
    var records: map<SessionId, Record>

    constructor ()
      ensures records == map[]
    {
      records := map[];
    }

    /** `POST /session`: destructure the body and assign both fields of the caller's record. */
    method Save(sid: SessionId, body: Body)
      modifies this
      ensures records == SaveProgress(old(records), sid, body)
      ensures sid in records && records[sid] == Record(Field(body, "lastStroke"), Field(body, "context"))
      ensures forall other | other in old(records) && other != sid :: other in records && records[other] == old(records)[other]
    {
      var lastStroke := Field(body, "lastStroke");
      var context := Field(body, "context");
      records := records[sid := Record(lastStroke, context)];
    }

    /** `GET /session`: each field of the caller's record `|| null`. */
    method Read(sid: SessionId) returns (p: Progress)
      ensures p == ReadProgress(records, sid)
      ensures sid !in records ==> p == Progress(Null, Null)
    {
      var rec := FRESH;
      if sid in records {
        rec := records[sid];
      }
      p := Progress(Or(rec.lastStroke, Null), Or(rec.context, Null));
    }
  }
}
