/** The session log as a function of the key-value store: what a read
    returns, what each operation leaves in the store, and the laws that tie
    them together. */
module History {
  import opened Wrappers
  import opened Sequences
  import opened Messages

  /** The backend's contents: one value per key; a session's log sits under
      the session identifier, newest record first. */
  type Store = map<string, seq<Record>>

  /** The filter of a read fails on a record with `type` but no `data`. */
  datatype ReadError = DataUndefined

  /** Key of a session's backup: the identifier with `::backup` appended. */
  function BackupKey(sessionId: string): (key: string)
    ensures |key| == |sessionId| + 8
    ensures key[..|sessionId|] == sessionId
    ensures key != sessionId
  {
    sessionId + "::backup"
  }

  /** Two sessions never share a backup key. */
  lemma BackupKeyInjective(a: string, b: string)
    requires BackupKey(a) == BackupKey(b)
    ensures a == b
  {
    assert a == BackupKey(a)[..|a|] == BackupKey(b)[..|b|] == b;
  }

  /** The stored log of a session; an absent key reads as the empty log. */
  function Stored(store: Store, sessionId: string): seq<Record> {
    if sessionId in store then store[sessionId] else []
  }

  /** True when the read filter does not fail on any record of `rs`. */
  predicate Readable(rs: seq<Record>) {
    forall r | r in rs :: !Faulty(r)
  }

  /** The read filter: keeps the well-formed records, in order. */
  function DropMalformed(rs: seq<Record>): (kept: seq<Record>)
    ensures AllWellFormed(kept)
    ensures forall r :: r in kept <==> r in rs && WellFormed(r)
    ensures |kept| <= |rs|
  {
    if rs == [] then []
    else (if WellFormed(rs[0]) then [rs[0]] else []) + DropMalformed(rs[1..])
  }

  /** `getMessages`: reverse the stored log into chronological order, drop
      malformed records, decode the rest. */
  function Read(store: Store, sessionId: string): Result<seq<Message>, ReadError> {
    var ordered := Reverse(Stored(store, sessionId));
    if !Readable(ordered) then Failure(DataUndefined)
    else Success(DecodeAll(DropMalformed(ordered)))
  }

  /** `addMessage` / `addMessages`: unless read-only, read the log, append the
      batch, reverse back to newest-first, encode and overwrite the session
      key; a failed read writes nothing. */
  function AfterAdd(store: Store, sessionId: string, readOnly: bool, ms: seq<Message>): (after: Store)
    ensures readOnly ==> after == store
    ensures after.Keys <= store.Keys + {sessionId}
    ensures forall k | k in store && k != sessionId :: k in after && after[k] == store[k]
  {
    if readOnly then store
    else match Read(store, sessionId)
      case Failure(_) => store
      case Success(log) => store[sessionId := EncodeAll(Reverse(log + ms))]
  }

  /** `clear`: delete the session key. */
  function AfterClear(store: Store, sessionId: string): (after: Store)
    ensures sessionId !in after
    ensures after.Keys == store.Keys - {sessionId}
    ensures Read(after, sessionId) == Success([])
    ensures forall k | k in store && k != sessionId :: k in after && after[k] == store[k]
  {
    store - {sessionId}
  }

  /** `backup`: copy the session value verbatim to the backup key. */
  function AfterBackup(store: Store, sessionId: string): (after: Store)
    requires sessionId in store
    ensures BackupKey(sessionId) in after && after[BackupKey(sessionId)] == store[sessionId]
    ensures after.Keys == store.Keys + {BackupKey(sessionId)}
    ensures forall k | k in store && k != BackupKey(sessionId) :: after[k] == store[k]
  {
    store[BackupKey(sessionId) := store[sessionId]]
  }

  /** `restore`: copy the backup value verbatim back to the session key; the
      backup stays where it is. */
  function AfterRestore(store: Store, sessionId: string): (after: Store)
    requires BackupKey(sessionId) in store
    ensures sessionId in after && after[sessionId] == store[BackupKey(sessionId)]
    ensures after.Keys == store.Keys + {sessionId}
    ensures forall k | k in store && k != sessionId :: after[k] == store[k]
  {
    store[sessionId := store[BackupKey(sessionId)]]
  }

  // ---------------------------------------------------------------------
  // The read filter

  /** The filter treats the two halves of a concatenation independently, so
      survivors keep their relative order. */
  lemma {:induction false} DropMalformedConcat(a: seq<Record>, b: seq<Record>)
    ensures DropMalformed(a + b) == DropMalformed(a) + DropMalformed(b)
  {
    if a == [] {
      assert a + b == b;
    } else {
      assert (a + b)[1..] == a[1..] + b;
      DropMalformedConcat(a[1..], b);
    }
  }

  /** Filtering the chronological log gives the reversal of filtering the
      stored one. */
  lemma {:induction false} DropMalformedReverse(rs: seq<Record>)
    ensures DropMalformed(Reverse(rs)) == Reverse(DropMalformed(rs))
  {
    if rs != [] {
      var head := if WellFormed(rs[0]) then [rs[0]] else [];
      calc {
        DropMalformed(Reverse(rs));
        DropMalformed(Reverse(rs[1..]) + [rs[0]]);
        { DropMalformedConcat(Reverse(rs[1..]), [rs[0]]); }
        DropMalformed(Reverse(rs[1..])) + DropMalformed([rs[0]]);
        { DropMalformedReverse(rs[1..]); assert DropMalformed([rs[0]]) == head; }
        Reverse(DropMalformed(rs[1..])) + head;
        Reverse(DropMalformed(rs[1..])) + Reverse(head);
        { ReverseConcat(head, DropMalformed(rs[1..])); }
        Reverse(head + DropMalformed(rs[1..]));
      }
    }
  }

  /** The filter leaves a log unchanged exactly when every record in it is
      well-formed. */
  lemma {:induction false} DropMalformedIdentity(rs: seq<Record>)
    ensures DropMalformed(rs) == rs <==> AllWellFormed(rs)
  {
    if rs != [] && AllWellFormed(rs) {
      assert forall r | r in rs[1..] :: r in rs;
      DropMalformedIdentity(rs[1..]);
    }
  }

  // ---------------------------------------------------------------------
  // Reads

  /** An absent session key reads as the empty log. */
  lemma ReadAbsent(store: Store, sessionId: string)
    requires sessionId !in store
    ensures Read(store, sessionId) == Success([])
  {
  }

  /** A read fails exactly when the stored log holds a record with `type` but
      no `data`; otherwise it returns the well-formed records, oldest first. */
  lemma ReadResult(store: Store, sessionId: string)
    ensures Read(store, sessionId).Failure? <==> exists r :: r in Stored(store, sessionId) && Faulty(r)
    ensures Read(store, sessionId).Success? ==>
      EncodeAll(Read(store, sessionId).value) == Reverse(DropMalformed(Stored(store, sessionId)))
  {
    var s := Stored(store, sessionId);
    ReverseMembers(s);
    DropMalformedReverse(s);
  }

  // ---------------------------------------------------------------------
  // Appends

  /** After a successful append the session key holds the batch, newest
      first, ahead of the well-formed part of the old log. */
  lemma AddStoresNewestFirst(store: Store, sessionId: string, ms: seq<Message>)
    requires Read(store, sessionId).Success?
    ensures var after := AfterAdd(store, sessionId, false, ms);
      sessionId in after &&
      after[sessionId] == Reverse(EncodeAll(ms)) + DropMalformed(Stored(store, sessionId))
  {
    var s := Stored(store, sessionId);
    var log := Read(store, sessionId).value;
    ReadResult(store, sessionId);
    calc {
      EncodeAll(Reverse(log + ms));
      { ReverseConcat(log, ms); }
      EncodeAll(Reverse(ms) + Reverse(log));
      { EncodeAllConcat(Reverse(ms), Reverse(log)); EncodeAllReverse(ms); EncodeAllReverse(log); }
      Reverse(EncodeAll(ms)) + Reverse(EncodeAll(log));
      { ReverseReverse(DropMalformed(s)); }
      Reverse(EncodeAll(ms)) + DropMalformed(s);
    }
  }

  /** After a successful append, reading the log gives the old log followed
      by the batch, in the order given. */
  lemma ReadAfterAdd(store: Store, sessionId: string, ms: seq<Message>)
    requires Read(store, sessionId).Success?
    ensures Read(AfterAdd(store, sessionId, false, ms), sessionId)
      == Success(Read(store, sessionId).value + ms)
  {
    var after := AfterAdd(store, sessionId, false, ms);
    var log := Read(store, sessionId).value;
    var kept := DropMalformed(Stored(store, sessionId));
    AddStoresNewestFirst(store, sessionId, ms);
    ReadResult(store, sessionId);
    var written := Reverse(EncodeAll(ms)) + kept;
    assert Reverse(written) == Reverse(kept) + EncodeAll(ms) by {
      ReverseConcat(Reverse(EncodeAll(ms)), kept);
      ReverseReverse(EncodeAll(ms));
    }
    assert Reverse(kept) == EncodeAll(log);
    EncodeAllConcat(log, ms);
    assert Reverse(written) == EncodeAll(log + ms);
    DropMalformedIdentity(EncodeAll(log + ms));
    assert Readable(Reverse(written));
    DecodeEncodeAll(log + ms);
  }

  /** After a successful append every stored record is well-formed: the
      malformed records of the old log are gone from storage. */
  lemma AddPurgesMalformed(store: Store, sessionId: string, ms: seq<Message>)
    requires Read(store, sessionId).Success?
    ensures var after := AfterAdd(store, sessionId, false, ms);
      sessionId in after && AllWellFormed(after[sessionId]) &&
      forall r | r in Stored(store, sessionId) && !WellFormed(r) :: r !in after[sessionId]
  {
    AddStoresNewestFirst(store, sessionId, ms);
    ReverseMembers(EncodeAll(ms));
  }

  /** An empty batch still rewrites the session key: it keeps the
      well-formed records, oldest last, and nothing else. */
  lemma AddNothingRewrites(store: Store, sessionId: string)
    requires Read(store, sessionId).Success?
    ensures var after := AfterAdd(store, sessionId, false, []);
      sessionId in after && after[sessionId] == DropMalformed(Stored(store, sessionId))
  {
    AddStoresNewestFirst(store, sessionId, []);
  }

  /** An append whose read fails leaves the store as it was. */
  lemma AddAfterFailedRead(store: Store, sessionId: string, readOnly: bool, ms: seq<Message>)
    requires exists r :: r in Stored(store, sessionId) && Faulty(r)
    ensures AfterAdd(store, sessionId, readOnly, ms) == store
  {
    ReadResult(store, sessionId);
  }

  // ---------------------------------------------------------------------
  // Sequences of operations on one session

  /** One public operation of a session log. */
  datatype Call =
    | AddMessage(message: Message)
    | AddMessages(messages: seq<Message>)
    | Clear
    | Backup
    | Restore

  /** The store after one call; `None` when a copy's source key is absent,
      which the backend's contract leaves undefined. */
  function Step(store: Store, sessionId: string, readOnly: bool, call: Call): Option<Store> {
    match call
    case AddMessage(m) => Some(AfterAdd(store, sessionId, readOnly, [m]))
    case AddMessages(ms) => Some(AfterAdd(store, sessionId, readOnly, ms))
    case Clear => Some(AfterClear(store, sessionId))
    case Backup =>
      if sessionId in store then Some(AfterBackup(store, sessionId)) else None
    case Restore =>
      if BackupKey(sessionId) in store then Some(AfterRestore(store, sessionId)) else None
  }

  /** The store after the calls, one after the other. */
  function Run(store: Store, sessionId: string, readOnly: bool, calls: seq<Call>): Option<Store>
    decreases calls
  {
    if calls == [] then Some(store)
    else match Step(store, sessionId, readOnly, calls[0])
      case None => None
      case Some(next) => Run(next, sessionId, readOnly, calls[1..])
  }

  predicate IsAppend(call: Call) {
    call.AddMessage? || call.AddMessages?
  }

  /** The messages one append hands in, in order. */
  function Batch(call: Call): seq<Message>
    requires IsAppend(call)
  {
    if call.AddMessage? then [call.message] else call.messages
  }

  /** The messages the appends of `calls` hand in, in order. */
  function Sent(calls: seq<Call>): seq<Message>
    requires forall c | c in calls :: IsAppend(c)
  {
    if calls == [] then []
    else
      assert calls[0] in calls && forall c | c in calls[1..] :: c in calls;
      Batch(calls[0]) + Sent(calls[1..])
  }

  /** An append call is one `AfterAdd` of its batch. */
  lemma StepAppend(store: Store, sessionId: string, readOnly: bool, call: Call)
    requires IsAppend(call)
    ensures Step(store, sessionId, readOnly, call) == Some(AfterAdd(store, sessionId, readOnly, Batch(call)))
  {
  }

  /** Once the backup key exists, calls other than `backup` always run (every
      `restore` finds its source) and leave the backup key's value alone. */
  lemma {:induction false} BackupKeyKept(store: Store, sessionId: string, readOnly: bool, calls: seq<Call>)
    requires BackupKey(sessionId) in store
    requires forall c | c in calls :: !c.Backup?
    decreases calls
    ensures Run(store, sessionId, readOnly, calls).Some?
    ensures var after := Run(store, sessionId, readOnly, calls).value;
      BackupKey(sessionId) in after && after[BackupKey(sessionId)] == store[BackupKey(sessionId)]
  {
    if calls != [] {
      assert calls[0] in calls;
      assert Step(store, sessionId, readOnly, calls[0]).Some?;
      var next := Step(store, sessionId, readOnly, calls[0]).value;
      assert BackupKey(sessionId) in next && next[BackupKey(sessionId)] == store[BackupKey(sessionId)];
      assert forall c | c in calls[1..] :: c in calls;
      BackupKeyKept(next, sessionId, readOnly, calls[1..]);
    }
  }

  /** Backup, then any calls except another backup, then restore: the whole
      sequence runs, and the session key holds exactly what it held at backup
      time. */
  lemma {:induction false} BackupRestoreRoundTrip(store: Store, sessionId: string, readOnly: bool, calls: seq<Call>)
    requires sessionId in store
    requires forall c | c in calls :: !c.Backup?
    ensures Run(store, sessionId, readOnly, [Backup] + calls + [Restore]).Some?
    ensures var after := Run(store, sessionId, readOnly, [Backup] + calls + [Restore]).value;
      sessionId in after && after[sessionId] == store[sessionId]
  {
    var all := [Backup] + calls + [Restore];
    assert all[0] == Backup && all[1..] == calls + [Restore];
    var backedUp := AfterBackup(store, sessionId);
    assert Run(store, sessionId, readOnly, all) == Run(backedUp, sessionId, readOnly, calls + [Restore]);
    RunConcat(backedUp, sessionId, readOnly, calls, [Restore]);
    BackupKeyKept(backedUp, sessionId, readOnly, calls);
    var mid := Run(backedUp, sessionId, readOnly, calls).value;
    assert Run(mid, sessionId, readOnly, [Restore]) == Some(AfterRestore(mid, sessionId));
  }

  /** Running two lists of calls is running the first, then the second. */
  lemma {:induction false} RunConcat(store: Store, sessionId: string, readOnly: bool, a: seq<Call>, b: seq<Call>)
    decreases a
    ensures Run(store, sessionId, readOnly, a + b) ==
      match Run(store, sessionId, readOnly, a)
      case None => None
      case Some(mid) => Run(mid, sessionId, readOnly, b)
  {
    if a == [] {
      assert a + b == b;
    } else {
      assert (a + b)[0] == a[0] && (a + b)[1..] == a[1..] + b;
      match Step(store, sessionId, readOnly, a[0])
      case None =>
      case Some(next) => RunConcat(next, sessionId, readOnly, a[1..], b);
    }
  }

  /** Appends alone always run, and afterwards a read returns the old log
      followed by every message sent, in the order sent. */
  lemma {:induction false} ReadAfterAppends(store: Store, sessionId: string, calls: seq<Call>)
    requires forall c | c in calls :: IsAppend(c)
    requires Read(store, sessionId).Success?
    decreases calls
    ensures Run(store, sessionId, false, calls).Some?
    ensures Read(Run(store, sessionId, false, calls).value, sessionId)
      == Success(Read(store, sessionId).value + Sent(calls))
  {
    if calls == [] {
      assert Read(store, sessionId).value + Sent(calls) == Read(store, sessionId).value;
    } else {
      var c, rest := calls[0], calls[1..];
      assert c in calls;
      var next := AfterAdd(store, sessionId, false, Batch(c));
      StepAppend(store, sessionId, false, c);
      assert Run(store, sessionId, false, calls) == Run(next, sessionId, false, rest);
      ReadAfterAdd(store, sessionId, Batch(c));
      var log, mid := Read(store, sessionId).value, Read(next, sessionId).value;
      assert mid == log + Batch(c);
      assert forall d | d in rest :: d in calls;
      ReadAfterAppends(next, sessionId, rest);
      assert Sent(calls) == Batch(c) + Sent(rest);
      calc {
        mid + Sent(rest);
        (log + Batch(c)) + Sent(rest);
        { ConcatAssociative(log, Batch(c), Sent(rest)); }
        log + (Batch(c) + Sent(rest));
        log + Sent(calls);
      }
    }
  }

  /** On a read-only session appends change nothing at all. */
  lemma {:induction false} ReadOnlyAppendsChangeNothing(store: Store, sessionId: string, calls: seq<Call>)
    requires forall c | c in calls :: IsAppend(c)
    decreases calls
    ensures Run(store, sessionId, true, calls) == Some(store)
  {
    if calls != [] {
      assert calls[0] in calls;
      assert forall d | d in calls[1..] :: d in calls;
      ReadOnlyAppendsChangeNothing(store, sessionId, calls[1..]);
    }
  }
}
