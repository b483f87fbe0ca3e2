/** src/domain/audit.py and `_serialize` of the SQLite audit repository. */
module AuditEvents {
  import opened Basics
  import opened Integrity

  datatype AuditEventType =
    | ACCESS_ALLOWED
    | ACCESS_DENIED
    | SESSION_OPENING
    | SESSION_ACTIVE
    | SESSION_CLOSED
    | SESSION_FAILED

  /** Instants are integers; a clock reading is always timezone-aware. */
  datatype AuditEvent = AuditEvent(
    id: string,
    timestamp: int,
    eventType: AuditEventType,
    actorUserId: string,
    targetId: string,
    sessionId: Option<string>,
    result: string,
    reasonCode: Option<string>)

  function TypeText(t: AuditEventType): string {
    match t
    case ACCESS_ALLOWED => "access_allowed"
    case ACCESS_DENIED => "access_denied"
    case SESSION_OPENING => "session_opening"
    case SESSION_ACTIVE => "session_active"
    case SESSION_CLOSED => "session_closed"
    case SESSION_FAILED => "session_failed"
  }

  /** `isoFormat` renders an instant in UTC; the calendar itself is not part of the model. */
  function Serialize(isoFormat: int -> string, e: AuditEvent): Record {
    Record(e.id, isoFormat(e.timestamp), TypeText(e.eventType), e.actorUserId, e.targetId,
           e.sessionId, e.result, e.reasonCode)
  }
}
