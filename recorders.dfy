/**
 * The two service interfaces the routing code talks to, as objects that record every call:
 * IQueueProcessor.Produce appends a (stream key, payload) message, IProcessLogger.LogAsync
 * appends a (source, message) audit entry. The Redis implementations are modelled on their
 * own in RedisQueue and ProcessLog.
 */
module Recorders {
  datatype Message = Message(streamKey: string, payload: string)

  datatype AuditEntry = AuditEntry(source: string, message: string)

  /** IQueueProcessor, as seen by its callers. */
  class QueueRecorder {
    var produced: seq<Message>

    constructor()
      ensures produced == []
    {
      produced := [];
    }

    /** Produce: one message on the stream; the message id is its position. */
    method Produce(streamKey: string, data: string) returns (messageId: nat)
      modifies this
      ensures produced == old(produced) + [Message(streamKey, data)]
      ensures messageId == |old(produced)|
    {
      messageId := |produced|;
      produced := produced + [Message(streamKey, data)];
    }
  }

  /** IProcessLogger, as seen by its callers. */
  class LogRecorder {
    var entries: seq<AuditEntry>

    constructor()
      ensures entries == []
    {
      entries := [];
    }

    /** LogAsync: one audit entry. */
    method LogAsync(source: string, message: string)
      modifies this
      ensures entries == old(entries) + [AuditEntry(source, message)]
    {
      entries := entries + [AuditEntry(source, message)];
    }
  }
}
