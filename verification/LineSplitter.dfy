/** The client's incremental splitting of the byte stream from the chat server into messages. */
module LineSplitter {
  import opened ByteSeqs

  /** The position of the first delimiter, or the length. */
  function FirstIndex(data: string, delimiter: char): (i: nat)
    ensures i <= |data|
    ensures i < |data| ==> data[i] == delimiter
    ensures delimiter !in data[..i]
  {
    if data == "" || data[0] == delimiter then 0 else
      var i := 1 + FirstIndex(data[1..], delimiter);
      assert data[..i] == [data[0]] + data[1..][..i - 1];
      i
  }

  /** The complete messages of a stream, and what comes after the last delimiter. */
  function Messages(data: string, delimiter: char): (r: (seq<string>, string))
    decreases |data|
  {
    var i := FirstIndex(data, delimiter);
    if i == |data| then ([], data) else
      var (parts, rest) := Messages(data[i + 1..], delimiter);
      ([data[..i]] + parts, rest)
  }

  /** Every message followed by the delimiter. */
  function Terminated(parts: seq<string>, delimiter: char): string
  {
    if parts == [] then "" else parts[0] + [delimiter] + Terminated(parts[1..], delimiter)
  }

  ghost predicate IsDecomposition(data: string, delimiter: char, parts: seq<string>, rest: string)
  {
    && data == Terminated(parts, delimiter) + rest
    && (forall p | p in parts :: delimiter !in p)
    && delimiter !in rest
  }

  lemma {:induction false} FirstIndexOfPrefix(part: string, delimiter: char, more: string)
    requires delimiter !in part
    ensures FirstIndex(part + [delimiter] + more, delimiter) == |part|
  {
    var data := part + [delimiter] + more;
    if part != "" {
      assert data[0] == part[0] && data[1..] == part[1..] + [delimiter] + more;
      assert forall c | c in part[1..] :: c in part;
      FirstIndexOfPrefix(part[1..], delimiter, more);
    }
  }

  /**
   The messages and the remainder are the only way to write the stream as
   delimiter-free pieces, each but the last followed by the delimiter.
   */
  lemma MessagesCharacterised(data: string, delimiter: char, parts: seq<string>, rest: string)
    ensures Messages(data, delimiter) == (parts, rest) <==> IsDecomposition(data, delimiter, parts, rest)
  {
    if Messages(data, delimiter) == (parts, rest) {
      MessagesDecompose(data, delimiter);
    }
    if IsDecomposition(data, delimiter, parts, rest) {
      DecompositionIsUnique(data, delimiter, parts, rest);
    }
  }

  lemma DecompositionGrows(part: string, delimiter: char, tail: string, more: seq<string>, rest: string)
    requires delimiter !in part && IsDecomposition(tail, delimiter, more, rest)
    ensures IsDecomposition(part + [delimiter] + tail, delimiter, [part] + more, rest)
  {
    var parts := [part] + more;
    assert parts[1..] == more && parts[0] == part;
    Associative(part + [delimiter], Terminated(more, delimiter), rest);
  }

  lemma {:induction false} MessagesDecompose(data: string, delimiter: char)
    ensures var (parts, rest) := Messages(data, delimiter); IsDecomposition(data, delimiter, parts, rest)
    decreases |data|
  {
    var i := FirstIndex(data, delimiter);
    if i == |data| {
      assert data[..i] == data;
      assert Terminated([], delimiter) + data == data;
    } else {
      var tail := data[i + 1..];
      assert data == data[..i] + [delimiter] + tail;
      MessagesDecompose(tail, delimiter);
      hide IsDecomposition;
      DecompositionGrows(data[..i], delimiter, tail, Messages(tail, delimiter).0, Messages(tail, delimiter).1);
    }
  }

  lemma {:induction false} DecompositionIsUnique(data: string, delimiter: char, parts: seq<string>, rest: string)
    requires IsDecomposition(data, delimiter, parts, rest)
    ensures Messages(data, delimiter) == (parts, rest)
    decreases |parts|
  {
    var i := FirstIndex(data, delimiter);
    if parts == [] {
      assert data == rest;
      assert i == |data|;
    } else {
      var more := Terminated(parts[1..], delimiter) + rest;
      Associative(parts[0] + [delimiter], Terminated(parts[1..], delimiter), rest);
      FirstIndexOfPrefix(parts[0], delimiter, more);
      assert data == parts[0] + [delimiter] + more;
      assert data[i + 1..] == more && data[..i] == parts[0];
      DecompositionIsUnique(more, delimiter, parts[1..], rest);
      assert parts == [parts[0]] + parts[1..];
    }
  }

  lemma {:induction false} TerminatedAppend(a: seq<string>, b: seq<string>, delimiter: char)
    ensures Terminated(a + b, delimiter) == Terminated(a, delimiter) + Terminated(b, delimiter)
  {
    if a == [] {
      assert a + b == b;
    } else {
      assert (a + b)[1..] == a[1..] + b && (a + b)[0] == a[0];
      TerminatedAppend(a[1..], b, delimiter);
      Associative(a[0] + [delimiter], Terminated(a[1..], delimiter), Terminated(b, delimiter));
    }
  }

  /** Splitting what was left over together with what arrives next continues where the split had stopped. */
  lemma MessagesContinue(a: string, b: string, delimiter: char)
    ensures var (parts, rest) := Messages(a, delimiter);
      var (more, rest') := Messages(rest + b, delimiter);
      Messages(a + b, delimiter) == (parts + more, rest')
  {
    var (parts, rest) := Messages(a, delimiter);
    var (more, rest') := Messages(rest + b, delimiter);
    MessagesDecompose(a, delimiter);
    MessagesDecompose(rest + b, delimiter);
    hide Messages;
    TerminatedAppend(parts, more, delimiter);
    hide Terminated;
    var t, u := Terminated(parts, delimiter), Terminated(more, delimiter);
    Associative(t, rest, b);
    Associative(t, u, rest');
    assert a + b == (t + u) + rest';
    DecompositionIsUnique(a + b, delimiter, parts + more, rest');
  }

  /** The receive loop over a sequence of chunks: messages passed on, and the text kept back. */
  function Receive(chunks: seq<string>, incomplete: string): (seq<string>, string)
    decreases |chunks|
  {
    if chunks == [] then ([], incomplete) else
      var (parts, rest) := Messages(incomplete + chunks[0], '\n');
      var (more, rest') := Receive(chunks[1..], rest);
      (parts + more, rest')
  }

  function Concat(chunks: seq<string>): string
  {
    if chunks == [] then "" else chunks[0] + Concat(chunks[1..])
  }

  lemma {:induction false} ReceiveContinues(chunks: seq<string>, incomplete: string)
    requires '\n' !in incomplete
    ensures Receive(chunks, incomplete) == Messages(incomplete + Concat(chunks), '\n')
    decreases |chunks|
  {
    if chunks == [] {
      assert incomplete + "" == incomplete;
      assert Terminated([], '\n') + incomplete == incomplete;
      DecompositionIsUnique(incomplete, '\n', [], incomplete);
    } else {
      var (parts, rest) := Messages(incomplete + chunks[0], '\n');
      MessagesDecompose(incomplete + chunks[0], '\n');
      ReceiveContinues(chunks[1..], rest);
      MessagesContinue(incomplete + chunks[0], Concat(chunks[1..]), '\n');
      Associative(incomplete, chunks[0], Concat(chunks[1..]));
    }
  }

  /** However the stream is cut into reads, the same messages come out and the same remainder is kept. */
  lemma ChunkingIsIrrelevant(chunks: seq<string>)
    ensures Receive(chunks, "") == Messages(Concat(chunks), '\n')
  {
    ReceiveContinues(chunks, "");
    assert "" + Concat(chunks) == Concat(chunks);
  }

  /** `splitMessages`: one pass over the text; a delimiter is a single byte, so runes and bytes agree. */
  method SplitMessages(data: string, delimiter: char) returns (parts: seq<string>, rest: string)
    ensures (parts, rest) == Messages(data, delimiter)
  {
    parts := [];
    var lastIndex := 0;
    for i := 0 to |data|
      invariant lastIndex <= i
      invariant IsDecomposition(data[..i], delimiter, parts, data[lastIndex..i])
    {
      var done := data[lastIndex..i];
      if data[i] == delimiter {
        TerminatedAppend(parts, [done], delimiter);
        assert Terminated([done][1..], delimiter) == "";
        assert data[..i + 1] == Terminated(parts, delimiter) + (done + [delimiter]) + "";
        parts := parts + [done];
        lastIndex := i + 1;
      } else {
        assert data[lastIndex..i + 1] == done + [data[i]];
        assert data[..i + 1] == Terminated(parts, delimiter) + data[lastIndex..i + 1];
      }
    }
    rest := data[lastIndex..];
    assert data[..|data|] == data;
    DecompositionIsUnique(data, delimiter, parts, rest);
  }

  /** The part of the chat client that survives between reads. */
  class ChatReader {
    var incomplete: string

    constructor ()
      ensures incomplete == ""
    {
      incomplete := "";
    }

    /** One read of the chat connection: messages to pass on. */
    method OnRead(chunk: string) returns (messages: seq<string>)
      modifies this
      ensures (messages, incomplete) == Messages(old(incomplete) + chunk, '\n')
    {
      incomplete := incomplete + chunk;
      messages, incomplete := SplitMessages(incomplete, '\n');
    }

    /** The reads of a whole session. */
    method OnReads(chunks: seq<string>) returns (messages: seq<string>)
      modifies this
      ensures (messages, incomplete) == Receive(chunks, old(incomplete))
    {
      messages := [];
      var i := 0;
      assert chunks[0..] == chunks;
      assert [] + Receive(chunks, incomplete).0 == Receive(chunks, incomplete).0;
      while i < |chunks|
        invariant i <= |chunks|
        invariant Receive(chunks, old(incomplete))
                  == (messages + Receive(chunks[i..], incomplete).0, Receive(chunks[i..], incomplete).1)
      {
        assert chunks[i..][0] == chunks[i] && chunks[i..][1..] == chunks[i + 1..];
        var more := OnRead(chunks[i]);
        i := i + 1;
        assert (messages + more) + Receive(chunks[i..], incomplete).0
               == messages + (more + Receive(chunks[i..], incomplete).0);
        messages := messages + more;
      }
      assert chunks[i..] == [] && messages + [] == messages;
    }
  }
}
