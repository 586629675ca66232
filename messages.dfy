/** The stored form of a chat message and the codec between it and the
    message callers hand in and get back. */
module Messages {
  import opened Wrappers
  import opened Sequences

  /** The `data` part of a stored record; only `content` is looked at. */
  datatype Data = Data(content: Option<string>)

  /** A stored record as it sits in the backend: `type` and `data` may each be
      missing, since the store can hold anything earlier writers put there. */
  datatype Record = Record(kind: Option<string>, data: Option<Data>)

  /** A chat message: its type ("human", "ai", "system", ...) and its text. */
  datatype Message = Message(kind: string, content: string)

  /** A record the read filter keeps: `type` defined and `data.content` defined
      (an empty string is defined). */
  predicate WellFormed(r: Record) {
    r.kind.Some? && r.data.Some? && r.data.value.content.Some?
  }

  /** A record on which the read filter itself fails: `type` is defined, so the
      filter goes on to read `data.content`, but `data` is missing. */
  predicate Faulty(r: Record) {
    r.kind.Some? && r.data.None?
  }

  predicate AllWellFormed(rs: seq<Record>) {
    forall r | r in rs :: WellFormed(r)
  }

  /** Stored form of one message. */
  function Encode(m: Message): (r: Record)
    ensures WellFormed(r) && !Faulty(r)
  {
    Record(Some(m.kind), Some(Data(Some(m.content))))
  }

  /** Message of one well-formed record; encoding it gives the record back. */
  function Decode(r: Record): (m: Message)
    requires WellFormed(r)
    ensures Encode(m) == r
  {
    Message(r.kind.value, r.data.value.content.value)
  }

  /** `mapChatMessagesToStoredMessages`: encodes each message, in order. */
  function EncodeAll(ms: seq<Message>): (rs: seq<Record>)
    ensures |rs| == |ms|
    ensures forall i | 0 <= i < |ms| :: rs[i] == Encode(ms[i])
    ensures AllWellFormed(rs)
  {
    seq(|ms|, i requires 0 <= i < |ms| => Encode(ms[i]))
  }

  /** `mapStoredMessagesToChatMessages`: decodes each record, in order. */
  function DecodeAll(rs: seq<Record>): (ms: seq<Message>)
    requires AllWellFormed(rs)
    ensures |ms| == |rs|
    ensures forall i | 0 <= i < |rs| :: Encode(ms[i]) == rs[i]
  {
    seq(|rs|, i requires 0 <= i < |rs| => Decode(rs[i]))
  }

  /** Decoding what was encoded gives back the messages. */
  lemma DecodeEncodeAll(ms: seq<Message>)
    ensures DecodeAll(EncodeAll(ms)) == ms
  {
    var back := DecodeAll(EncodeAll(ms));
    forall i | 0 <= i < |ms|
      ensures back[i] == ms[i]
    {
      assert Encode(back[i]) == Encode(ms[i]);
    }
  }

  /** Encoding what was decoded gives back the well-formed records. */
  lemma EncodeDecodeAll(rs: seq<Record>)
    requires AllWellFormed(rs)
    ensures EncodeAll(DecodeAll(rs)) == rs
  {
  }

  /** Encoding is applied element by element, so it commutes with
      concatenation and with reversal. */
  lemma EncodeAllConcat(a: seq<Message>, b: seq<Message>)
    ensures EncodeAll(a + b) == EncodeAll(a) + EncodeAll(b)
  {
  }

  lemma EncodeAllReverse(ms: seq<Message>)
    ensures EncodeAll(Reverse(ms)) == Reverse(EncodeAll(ms))
  {
  }
}
