# YDB chat message history, modelled in Dafny

The repository provides `YdbChatMessageHistory`, a chat history for a
conversational agent. It keeps one session's messages under one key of a
key-value store (YDB behind a key-value client). The stored log is kept
newest-first. `getMessages` reverses it into chronological order, drops
records that lack a `type` or a `data.content`, and decodes the rest into
chat messages. `addMessage` and `addMessages` read the whole log, append,
reverse back and overwrite the key. Both do nothing on a read-only
history. `clear` deletes the key. `backup` and `restore` copy the value
verbatim between the session key and `<sessionId>::backup`.

The project has these modules:

- `Wrappers` (`wrappers.dfy`): `Option`, `Result`, `Outcome`.
- `Sequences` (`sequences.dfy`): `Reverse` and its laws.
- `Messages` (`messages.dfy`): the stored `Record`, the chat `Message`,
  the well-formedness tests of the read filter, and the codec with its
  round trips.
- `History` (`history.dfy`): the session log as pure functions of the
  store. It gives what a read returns and what each operation leaves in
  the store, plus lemmas: order, purging of malformed records, read-only
  gating, confinement to the session key, and the backup/restore round
  trip over any sequence of calls.
- `KeyValue` (`backend.dfy`): class `Backend`, an in-memory stand-in for
  the key-value client, holding a `map<string, seq<Record>>`.
- `ChatHistory` (`chat_history.dfy`): class `YdbChatMessageHistory`. Its
  methods follow the source step by step. Each states its effect on the
  backend as the matching `History` transition.

Three behaviours of the code are easy to miss:

- The read filter tests that `content` is defined, not that it is
  non-empty. An empty string passes.
- The filter reads `x.data.content` whenever `x.type` is defined. So a
  record with a `type` but no `data` makes the read fail instead of being
  dropped. Every later append on a writable history fails too, until the
  key is cleared or overwritten by a restore of a readable backup. `History.Read` returns `Failure(DataUndefined)` for
  such a log. `AddMessage` and `AddMessages` then return `Fail` and write
  nothing.
- On a writable history whose log reads without failing,
  `addMessages([])` still writes the session key. It removes malformed
  records, and it creates the key (holding `[]`) when it was absent.

## Model

| member | source | states |
|---|---|---|
| Sequences.Reverse | main.js:41 | the reversal has the same length and element i is element n-1-i of the input |
| Sequences.ReverseReverse | main.js:55 | reversing twice is the identity, so the physical/logical inversion is undone exactly |
| Sequences.ReverseConcat | main.js:62 | reversing old log followed by a batch gives the reversed batch ahead of the reversed log |
| Messages.WellFormed | main.js:43 | no contract of its own: a record passes the read filter iff its `type` and its `data.content` are defined (an empty string is defined) |
| Messages.Faulty | main.js:43 | no contract of its own: the filter throws on a record whose `type` is defined and whose `data` is not; History.ReadResult states the read fails exactly then |
| Messages.Encode | main.js:56 | the stored form of one message is a record the filter keeps and never throws on |
| Messages.Decode | main.js:45 | decoding a well-formed record gives a message whose encoding is that record |
| Messages.EncodeAll | main.js:56 | each message is encoded in place, in order, into a well-formed record |
| Messages.DecodeAll | main.js:45 | each well-formed record is decoded in place, in order, and encoding the result gives the record back |
| Messages.EncodeDecodeAll | main.js:45-56 | encoding the decoded well-formed records gives back the same records |
| Messages.DecodeEncodeAll | main.js:45-56 | decoding the encoded messages gives back the same messages |
| History.BackupKey | main.js:76 | the backup key extends the session identifier by 8 characters and never equals it |
| History.BackupKeyInjective | main.js:76-80 | two different sessions never share a backup key |
| History.DropMalformed | main.js:42-44 | the kept records are all well-formed, and a record is kept iff it is in the input and well-formed |
| History.DropMalformedConcat | main.js:42-44 | filtering respects concatenation, so survivors keep their relative order |
| History.DropMalformedReverse | main.js:41-44 | filtering the chronological log is the reversal of filtering the stored log |
| History.DropMalformedIdentity | main.js:42-44 | the filter leaves a log unchanged iff every record in it is well-formed |
| History.Readable | main.js:42-44 | no contract of its own: the filter throws on no record of the log (no record is Faulty); History.ReadResult states a read fails exactly when it does not hold |
| History.Stored | main.js:38-40 | no contract of its own: the stored log of the session, the empty log when the key is absent; History.ReadAbsent states its consequence for a read |
| History.Read | main.js:37-45 | no contract of its own: the result of getMessages (reverse, filter, decode, or the filter's failure); History.ReadResult characterises it |
| History.ReadAbsent | main.js:38-40 | an absent session key reads as the empty log |
| History.ReadResult | main.js:38-45 | a read fails iff some stored record has a type but no data; otherwise the encoded result is the reversal of the well-formed stored records |
| History.AfterAdd | main.js:53-65 | read-only leaves the store unchanged; otherwise only the session key may be written or created |
| History.AddStoresNewestFirst | main.js:55-57 | after an append the session key holds the reversed batch ahead of the well-formed part of the old log |
| History.ReadAfterAdd | main.js:55-64 | after an append a read gives the old log followed by the batch in the order given |
| History.AddPurgesMalformed | main.js:55-57 | after an append every stored record is well-formed and no malformed old record remains |
| History.AddNothingRewrites | main.js:60-64 | an empty batch rewrites the session key with exactly the well-formed old records |
| History.AddAfterFailedRead | main.js:42-55 | when the stored log holds a record with a type but no data, an append changes nothing |
| History.AfterClear | main.js:71-73 | the session key is gone, no key is added, a read gives the empty log, and every other key is unchanged |
| History.AfterBackup | main.js:75-77 | the backup key holds the session value verbatim and every other key is unchanged |
| History.AfterRestore | main.js:79-81 | the session key holds the backup value verbatim and every other key, the backup included, is unchanged |
| History.BackupKeyKept | main.js:53-81 | once the backup key exists, any calls other than backup always run and leave the backup key's value unchanged |
| History.BackupRestoreRoundTrip | main.js:75-81 | when the session key exists, backup, then any calls except backup, then restore always runs and leaves the session value as it was at backup time |
| History.ReadAfterAppends | main.js:53-65 | any sequence of appends always runs, and afterwards a read gives the old log followed by every message sent, in order |
| History.ReadOnlyAppendsChangeNothing | main.js:54-61 | on a read-only history any sequence of appends leaves the store as it was |
| KeyValue.Backend.Get | main.js:39 | the value under the key, or the default when the key is absent |
| KeyValue.Backend.Set | main.js:57 | overwrites one key and leaves every other key alone |
| KeyValue.Backend.Del | main.js:72 | removes one key and leaves every other key alone |
| KeyValue.Backend.Copy | main.js:76 | copies the source value verbatim to the target and leaves every other key alone |
| ChatHistory.YdbChatMessageHistory.constructor | main.js:20-31 | keeps the session identifier and client; read-only only when given the boolean true |
| ChatHistory.YdbChatMessageHistory.GetMessages | main.js:37-46 | returns exactly the read of the session key |
| ChatHistory.YdbChatMessageHistory.AddMessage | main.js:53-58 | changes the store as an append of one message; fails iff writable and the read fails; on success a read gives the old log plus the message |
| ChatHistory.YdbChatMessageHistory.AddMessages | main.js:60-65 | changes the store as an append of the batch; fails iff writable and the read fails; on success a read gives the old log plus the batch |
| ChatHistory.YdbChatMessageHistory.Clear | main.js:71-73 | deletes the session key whatever the read-only flag, after which a read gives the empty log |
| ChatHistory.YdbChatMessageHistory.Backup | main.js:75-77 | copies the session value to the backup key whatever the read-only flag |
| ChatHistory.YdbChatMessageHistory.Restore | main.js:79-81 | copies the backup value to the session key whatever the read-only flag |

## Left out

- The key-value client (`@dieugene/key-value-db`) and its connection settings are left out. By default the backend address comes from the environment and the table name is `chat_history_db`; the constructor's `database` and `table_name` fields override them. The client is replaced by the in-memory `KeyValue.Backend`, passed to the constructor instead of being created there.
- The asynchronous calls and the lost update between two concurrent appends are left out. Each read-modify-write here runs as one sequential step.
- Failures inside the backend are left out (connection or serialisation errors). The model only covers the read failure raised by the filter.
- KeyValue.Backend.Copy: the source does not say what copying from an absent key does. So `Copy`, `Backup` and `Restore` require the source key to be present. In `History.Run` such a call yields `None`.
- The message codec is a field-for-field bijection between `Message(kind, content)` and a well-formed record. LangChain's stored messages carry more fields (role, name, tool calls, additional arguments); those are not modelled.
- A stored value that is falsy but not an array (`null`, `0`, `""`) cannot be represented, since a value is a sequence of records. The model covers the absent-key branch of the fallback to `[]`.
- JavaScript `null` is not told apart from an absent field: `None` stands for both. The filter tests `!== undefined`, so the source keeps a record whose `type` or `data.content` is `null`, which the model would drop. A `data` that is `null` makes the filter throw in the source as an absent `data` does in the model.
- Stored elements that are not objects are not modelled as such. A number, string or boolean element has an undefined `type`, so the filter drops it without throwing, as it drops a `Record(None, _)`. A `null` or `undefined` element makes the read throw; the model cannot represent it.
- The `getMessages.raw` helper is left out. So is the aliasing of the array reversed in place by `Array.prototype.reverse`; reversal is a pure function on sequences.
- `types.d.ts` only declares types, and is not part of this model.
