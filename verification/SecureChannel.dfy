/** The data phase: messages encrypted one per record, over a connection whose two ends hold matching keys. */
module SecureChannel {
  import opened Wrappers
  import opened ByteSeqs
  import opened Crypto
  import opened Payloads
  import opened Endpoint
  import Cbc
  import Records

  /** The largest message that one record can carry. */
  const MAX_MESSAGE := 65503

  /** The bytes `Write` puts on the connection. */
  function Written(lib: Library, st: State, iv: Block, message: Bytes): Bytes
    requires st.keys.Some?
  {
    Records.Encode(Records.Plain(Records.APPLICATION_DATA, Cbc.Encrypt(lib, st.keys.value.encryptKey, iv, message)))
  }

  /** The record on the wire. */
  lemma WrittenBytes(lib: Library, st: State, iv: Block, message: Bytes)
    requires st.keys.Some?
    ensures var s := Written(lib, st, iv, message);
      && |s| >= 5 && s[..3] == [0x17, 3, 3] && WordAt(s, 3) == (|s| - 5) % 65536
      && s[5..] == Cbc.Encrypt(lib, st.keys.value.encryptKey, iv, message)
  {
    hide Cbc.Encrypt, Records.Encode;
    Records.EncodedBytes(Records.APPLICATION_DATA, Cbc.Encrypt(lib, st.keys.value.encryptKey, iv, message));
  }

  /** What one `Read` decrypts, and the bytes left for the next. */
  function Receive(lib: Library, st: State, stream: Bytes): (Result<Bytes, Failure>, Bytes)
  {
    match Records.Read(stream)
    case (Err(_), rest) => (Err(ConnectionEnded), rest)
    case (Ok(r), rest) => (DecryptContent(lib, st, r.data), rest)
  }

  /** The two ends of one direction. */
  predicate Linked(sender: State, receiver: State)
  {
    sender.keys.Some? && receiver.keys.Some? && sender.keys.value.encryptKey == receiver.keys.value.decryptKey
  }

  /** The body of an encrypted message fits the 16-bit length exactly up to 65503 bytes of message. */
  lemma BodyFits(n: nat)
    ensures BLOCK_SIZE * (n / BLOCK_SIZE + 2) < Records.LENGTH_MODULUS <==> n <= MAX_MESSAGE
  {
  }

  /** Whatever a truncated length leaves of a longer body decrypts, if at all, to fewer than 65504 bytes. */
  lemma TruncatedIsShort(lib: Library, key: Bytes, body: Bytes)
    requires |body| % BLOCK_SIZE == 0
    ensures var r := Cbc.Decrypt(lib, key, body[..Records.WireLength(|body|)]);
      r.Ok? ==> |r.value| <= MAX_MESSAGE
  {
    var cut := body[..Records.WireLength(|body|)];
    if Cbc.Decrypt(lib, key, cut).Ok? {
      Cbc.DecryptedLength(lib, key, cut);
    }
    hide Cbc.Decrypt;
  }

  lemma ReceiveOfWritten(lib: Library, sender: State, receiver: State, iv: Block, message: Bytes, rest: Bytes)
    requires Linked(sender, receiver)
    ensures var body := Cbc.Encrypt(lib, sender.keys.value.encryptKey, iv, message);
      var n := Records.WireLength(|body|);
      Receive(lib, receiver, Written(lib, sender, iv, message) + rest)
      == (DecryptContent(lib, receiver, body[..n]), body[n..] + rest)
  {
    Records.ReadOfWritten(Records.APPLICATION_DATA, Cbc.Encrypt(lib, sender.keys.value.encryptKey, iv, message), rest);
    hide Records.Read, Records.Encode, Cbc.Encrypt, Cbc.Decrypt, DecryptContent;
  }

  /** A message arrives as it was sent, taking exactly its own record off the stream, if and only if it fits. */
  lemma MessageTransfer(lib: Library, sender: State, receiver: State, iv: Block, message: Bytes, rest: Bytes)
    requires Linked(sender, receiver)
    ensures Receive(lib, receiver, Written(lib, sender, iv, message) + rest) == (Ok(message), rest)
            <==> |message| <= MAX_MESSAGE
  {
    hide Receive, Written, Cbc.Encrypt, Cbc.Decrypt, Records.WireLength;
    var key := sender.keys.value.encryptKey;
    var body := Cbc.Encrypt(lib, key, iv, message);
    ReceiveOfWritten(lib, sender, receiver, iv, message, rest);
    Cbc.RoundTrip(lib, key, iv, message);
    BodyFits(|message|);
    if |message| <= MAX_MESSAGE {
      assert body[..|body|] == body && body[|body|..] + rest == rest;
    } else {
      TruncatedIsShort(lib, key, body);
    }
  }

  /** Messages written one after the other. */
  function WrittenAll(lib: Library, st: State, ivs: seq<Block>, messages: seq<Bytes>): Bytes
    requires st.keys.Some? && |ivs| == |messages|
  {
    if messages == [] then [] else
      Written(lib, st, ivs[0], messages[0]) + WrittenAll(lib, st, ivs[1..], messages[1..])
  }

  /** `n` reads in a row, as long as they succeed. */
  function ReceiveMany(lib: Library, st: State, stream: Bytes, n: nat): Option<(seq<Bytes>, Bytes)>
  {
    if n == 0 then Some(([], stream)) else
      match Receive(lib, st, stream)
      case (Err(_), _) => None
      case (Ok(m), rest) =>
        match ReceiveMany(lib, st, rest, n - 1)
        case None => None
        case Some((ms, end)) => Some(([m] + ms, end))
  }

  /** Any list of messages that fit is received as that list, under any IVs. */
  lemma {:induction false} MessagesTransfer(
      lib: Library, sender: State, receiver: State, ivs: seq<Block>, messages: seq<Bytes>, rest: Bytes)
    requires Linked(sender, receiver) && |ivs| == |messages|
    requires forall m | m in messages :: |m| <= MAX_MESSAGE
    ensures ReceiveMany(lib, receiver, WrittenAll(lib, sender, ivs, messages) + rest, |messages|)
            == Some((messages, rest))
  {
    hide Receive, Written;
    if messages == [] {
      assert WrittenAll(lib, sender, ivs, messages) + rest == rest;
    } else {
      var more := WrittenAll(lib, sender, ivs[1..], messages[1..]);
      Associative(Written(lib, sender, ivs[0], messages[0]), more, rest);
      MessageTransfer(lib, sender, receiver, ivs[0], messages[0], more + rest);
      MessagesTransfer(lib, sender, receiver, ivs[1..], messages[1..], rest);
      assert messages == [messages[0]] + messages[1..];
    }
  }
}
