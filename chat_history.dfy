/** The chat history of one session, kept under one key of a key-value
    backend; each operation is a method whose effect on the backend is the
    matching transition of `History`. */
module ChatHistory {
  import opened Wrappers
  import opened Sequences
  import opened Messages
  import opened History
  import opened KeyValue

  class YdbChatMessageHistory {
    const client: Backend
    const sessionId: string
    const readOnly: bool

    /** `readOnly` takes effect only when it is a boolean; otherwise (absent or
        of another type, both `None` here) the history is writable. */
    constructor (sessionId: string, readOnly: Option<bool>, client: Backend)
      ensures this.sessionId == sessionId && this.client == client
      ensures this.readOnly <==> readOnly == Some(true)
    {
      this.client := client;
      this.sessionId := sessionId;
      this.readOnly := if readOnly.Some? then readOnly.value else false;
    }

    /** The session's messages, oldest first, malformed records left out;
        fails when the filter meets a record with `type` but no `data`.
        This is the executable form of `History.Read`. */
    method GetMessages() returns (messages: Result<seq<Message>, ReadError>)
      ensures messages == Read(client.store, sessionId)
    {
      var rawStoredMessages := client.Get(sessionId, []);
      var orderedMessages := Reverse(rawStoredMessages);
      if !Readable(orderedMessages) {
        return Failure(DataUndefined);
      }
      var previousMessages := DropMalformed(orderedMessages);
      messages := Success(DecodeAll(previousMessages));
    }

    /** Appends one message; does nothing when read-only, and fails, writing
        nothing, when the read of the current log fails. */
    method AddMessage(message: Message) returns (outcome: Outcome<ReadError>)
      modifies client
      ensures client.store == AfterAdd(old(client.store), sessionId, readOnly, [message])
      ensures outcome.Fail? <==> !readOnly && old(Read(client.store, sessionId)).Failure?
      ensures outcome.Pass? && !readOnly ==>
        Read(client.store, sessionId) == Success(old(Read(client.store, sessionId)).value + [message])
    {
      if readOnly {
        return Pass;
      }
      var previous := GetMessages();
      if previous.Failure? {
        return Fail(previous.error);
      }
      ReadAfterAdd(client.store, sessionId, [message]);
      var messages := Reverse(previous.value + [message]);
      var messagesToAdd := EncodeAll(messages);
      client.Set(sessionId, messagesToAdd);
      outcome := Pass;
    }

    /** Appends a batch in the order given, in one write; an empty batch (the
        default) still rewrites the session key. */
    method AddMessages(messages: seq<Message> := []) returns (outcome: Outcome<ReadError>)
      modifies client
      ensures client.store == AfterAdd(old(client.store), sessionId, readOnly, messages)
      ensures outcome.Fail? <==> !readOnly && old(Read(client.store, sessionId)).Failure?
      ensures outcome.Pass? && !readOnly ==>
        Read(client.store, sessionId) == Success(old(Read(client.store, sessionId)).value + messages)
    {
      if readOnly {
        return Pass;
      }
      var previous := GetMessages();
      if previous.Failure? {
        return Fail(previous.error);
      }
      ReadAfterAdd(client.store, sessionId, messages);
      var combined := Reverse(previous.value + messages);
      var messagesToAdd := EncodeAll(combined);
      client.Set(sessionId, messagesToAdd);
      outcome := Pass;
    }

    /** Deletes the session key, read-only or not. */
    method Clear()
      modifies client
      ensures client.store == AfterClear(old(client.store), sessionId)
      ensures Read(client.store, sessionId) == Success([])
    {
      client.Del(sessionId);
    }

    /** Copies the session value to the backup key, read-only or not. */
    method Backup()
      requires sessionId in client.store
      modifies client
      ensures client.store == AfterBackup(old(client.store), sessionId)
    {
      client.Copy(sessionId, BackupKey(sessionId));
    }

    /** Copies the backup value back to the session key, read-only or not. */
    method Restore()
      requires BackupKey(sessionId) in client.store
      modifies client
      ensures client.store == AfterRestore(old(client.store), sessionId)
    {
      client.Copy(BackupKey(sessionId), sessionId);
    }
  }
}
