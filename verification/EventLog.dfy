/** Events of the append-only log (`event.h`). */
module EventLog {
  datatype Kind = User | Model | Tool | InternalNote | Correction

  datatype Event = Event(kind: Kind, tenantId: string, sessionId: string, payload: string, timestampUs: int,
                         modelId: string, stepIndex: int, toolCallId: string)
}
