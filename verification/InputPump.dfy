/** The retrying send queue of one terminal session. */
module InputPump {
  import opened TerminalDecode
  import opened Utf8

  const CHUNK_BYTES := 32768
  const BOM: Scalar := 0xFEFF

  /** A decoder that is new for each chunk drops a byte-order mark at its start. */
  function DropBom(t: Text): Text {
    if t != [] && t[0] == BOM then t[1..] else t
  }

  predicate StartsWithBom(chunk: seq<Byte>) {
    Decode(chunk) != [] && Decode(chunk)[0] == BOM
  }

  function DecodeChunks(chunks: seq<seq<Byte>>): Text {
    if chunks == [] then [] else DropBom(Decode(chunks[0])) + DecodeChunks(chunks[1..])
  }

  predicate NoBom(chunks: seq<seq<Byte>>) {
    forall c | c in chunks :: !StartsWithBom(c)
  }

  /** Decoding the chunks gives their bytes back, less three for every mark dropped. */
  lemma {:induction false} DecodedChunks(chunks: seq<seq<Byte>>)
    requires forall c | c in chunks :: Valid(c)
    ensures |Encode(DecodeChunks(chunks))| <= |Join(chunks)|
    ensures NoBom(chunks) <==> Encode(DecodeChunks(chunks)) == Join(chunks)
    ensures NoBom(chunks) <==> |Encode(DecodeChunks(chunks))| == |Join(chunks)|
  {
    if chunks != [] {
      var t, rest := Decode(chunks[0]), chunks[1..];
      EncodeInvertsDecode(chunks[0]);
      assert forall c :: c in chunks <==> c == chunks[0] || c in rest;
      DecodedChunks(rest);
      EncodeTwo(DropBom(t), DecodeChunks(rest));
      if StartsWithBom(chunks[0]) {
        assert Encode(t) == EncodeOne(BOM) + Encode(t[1..]);
      }
    }
  }

  /** Putting back y' for y between x and z restores the whole exactly when y' is y. */
  lemma Restores(x: seq<Byte>, y: seq<Byte>, y': seq<Byte>, z: seq<Byte>, same: bool)
    requires (same <==> y' == y) && (same <==> |y'| == |y|)
    ensures x + (y' + z) == x + y + z <==> same
  {
    if same {
      assert x + (y' + z) == x + y + z;
    } else {
      assert |x + (y' + z)| != |x + y + z|;
    }
  }

  /** What the server has, then what is cut and unsent, then what is still text. */
  function InLine(accepted: seq<Byte>, chunks: seq<seq<Byte>>, pending: Text): seq<Byte> {
    accepted + Join(chunks) + Encode(pending)
  }

  /** Decoding the unsent chunks back into the pending text loses nothing exactly when none of
      them begins with a byte-order mark. */
  lemma FailureIsExact(accepted: seq<Byte>, chunks: seq<seq<Byte>>, pending: Text, all: seq<Byte>)
    requires forall c | c in chunks :: Utf8.Valid(c)
    requires InLine(accepted, chunks, pending) == all
    ensures InLine(accepted, [], DecodeChunks(chunks) + pending) == all <==> NoBom(chunks)
  {
    var back := DecodeChunks(chunks);
    DecodedChunks(chunks);
    EncodeTwo(back, pending);
    Restores(accepted, Join(chunks), Encode(back), Encode(pending), NoBom(chunks));
    assert Join([]) == [];
    assert accepted + [] == accepted;
  }

  /** A failing input: a mark typed on its own, whose first post fails, is lost. */
  lemma FailureCanLoseAMark(typed: Text, chunks: seq<seq<Byte>>)
    requires typed == [BOM] && chunks == [Encode(typed)]
    ensures (forall c | c in chunks :: Utf8.Valid(c)) && InLine([], chunks, []) == Encode(typed)
    ensures InLine([], [], DecodeChunks(chunks) + []) != Encode(typed)
  {
    assert Join(chunks) == Encode(typed) + Join([]);
    DecodeInvertsEncode(typed);
    assert chunks[0] in chunks && StartsWithBom(chunks[0]);
    FailureIsExact([], chunks, [], Encode(typed));
  }

  // ---------- Texts without a mark ----------

  function DecodeAll(chunks: seq<seq<Byte>>): Text {
    if chunks == [] then [] else Decode(chunks[0]) + DecodeAll(chunks[1..])
  }

  lemma {:induction false} EncodeDecodeAll(chunks: seq<seq<Byte>>)
    requires forall c | c in chunks :: Utf8.Valid(c)
    ensures Encode(DecodeAll(chunks)) == Join(chunks)
  {
    if chunks != [] {
      EncodeInvertsDecode(chunks[0]);
      EncodeDecodeAll(chunks[1..]);
      EncodeTwo(Decode(chunks[0]), DecodeAll(chunks[1..]));
    }
  }

  lemma {:induction false} InDecodeAll(chunks: seq<seq<Byte>>, c: seq<Byte>)
    requires c in chunks
    ensures forall x | x in Decode(c) :: x in DecodeAll(chunks)
  {
    if c != chunks[0] { InDecodeAll(chunks[1..], c); }
  }

  /** The chunks of a text hold only characters of the text. */
  lemma ChunksOfText(chunks: seq<seq<Byte>>, text: Text)
    requires (forall c | c in chunks :: Utf8.Valid(c)) && Join(chunks) == Encode(text)
    ensures forall c, x | c in chunks && x in Decode(c) :: x in text
  {
    EncodeDecodeAll(chunks);
    DecodeInvertsEncode(DecodeAll(chunks));
    DecodeInvertsEncode(text);
    forall c, x | c in chunks && x in Decode(c) ensures x in text { InDecodeAll(chunks, c); }
  }

  ghost predicate MarkFree(chunks: seq<seq<Byte>>, pending: Text) {
    BOM !in pending && forall c | c in chunks :: BOM !in Decode(c)
  }

  lemma {:induction false} PutBackMarkFree(chunks: seq<seq<Byte>>, pending: Text)
    requires MarkFree(chunks, pending)
    ensures NoBom(chunks) && MarkFree([], DecodeChunks(chunks) + pending)
  {
    if chunks != [] { PutBackMarkFree(chunks[1..], pending); }
  }

  lemma NotEmpty(text: Text)
    requires text != []
    ensures Utf8.Valid(Encode(text)) && Encode(text) != []
  {
    assert text == [text[0]] + text[1..];
  }

  /** Cutting the pending text into chunks keeps the line, and brings in no mark. */
  lemma CutIsInLine(accepted: seq<Byte>, chunks: seq<seq<Byte>>, data: Text)
    requires (forall c | c in chunks :: Utf8.Valid(c)) && Join(chunks) == Encode(data)
    ensures InLine(accepted, chunks, []) == InLine(accepted, [], data)
    ensures MarkFree([], data) ==> MarkFree(chunks, [])
    ensures Encode(data) != [] ==> chunks != []
  {
    ChunksOfText(chunks, data);
    assert accepted + Join([]) == accepted && Encode([]) == [];
    assert accepted + Encode(data) + [] == accepted + Encode(data);
  }

  /** What putting unsent chunks back does to the line. */
  lemma PutBack(accepted: seq<Byte>, chunks: seq<seq<Byte>>, pending: Text, enqueued: Text, after: Text)
    requires (forall c | c in chunks :: Utf8.Valid(c)) && after == DecodeChunks(chunks) + pending
    requires BOM !in enqueued ==> InLine(accepted, chunks, pending) == Encode(enqueued) && MarkFree(chunks, pending)
    ensures InLine(accepted, chunks, pending) == Encode(enqueued) ==>
              (InLine(accepted, [], after) == Encode(enqueued) <==> NoBom(chunks))
    ensures BOM !in enqueued ==> MarkFree([], after) && InLine(accepted, [], after) == Encode(enqueued)
  {
    if InLine(accepted, chunks, pending) == Encode(enqueued) {
      FailureIsExact(accepted, chunks, pending, Encode(enqueued));
    }
    if BOM !in enqueued {
      PutBackMarkFree(chunks, pending);
    }
  }

  /** Text typed at the end of the line goes to the end of the line. */
  lemma TypedMore(ahead: seq<Byte>, pending: Text, enqueued: Text, data: Text)
    ensures ahead + Encode(pending) == Encode(enqueued) ==>
              ahead + Encode(pending + data) == Encode(enqueued + data)
  {
    EncodeTwo(pending, data);
    EncodeTwo(enqueued, data);
    InThreeParts(ahead, Encode(pending), Encode(data));
  }

  /** Moving the first chunk to the accepted bytes keeps the line. */
  lemma FirstAccepted(accepted: seq<Byte>, chunks: seq<seq<Byte>>, later: seq<Byte>)
    requires chunks != []
    ensures accepted + Join(chunks) + later == accepted + chunks[0] + Join(chunks[1..]) + later
  {
    assert Join(chunks) == chunks[0] + Join(chunks[1..]);
    assert accepted + (chunks[0] + Join(chunks[1..])) == accepted + chunks[0] + Join(chunks[1..]);
  }

  class InputQueue {
    var pending: Text
    var inflight: bool
    /** The chunks of the running pump that the server has not accepted, first one in flight. */
    var unsent: seq<seq<Byte>>

    ghost var enqueued: Text
    ghost var accepted: seq<Byte>
    ghost var outstanding: nat
    /** A post has failed and nothing has been typed since. */
    ghost var stalled: bool

    /** Every method keeps this, failed posts included: so as long as no byte-order mark has been
        typed, nothing is ever lost, repeated or reordered; and typed text is without a post only after a
        failed one, until the next key. */
    ghost predicate Valid()
      reads this
    {
      && (inflight <==> unsent != [])
      && outstanding == (if inflight then 1 else 0)
      && (pending != [] && !inflight ==> stalled)
      && (forall c | c in unsent :: Utf8.Valid(c) && 1 <= |c| <= CHUNK_BYTES)
      && Intact()
    }

    /** Accepted bytes, then unsent chunks, then pending text, are everything typed so far. */
    ghost predicate Conserved()
      reads this
    {
      InLine(accepted, unsent, pending) == Encode(enqueued)
    }

    ghost predicate Intact()
      reads this
    {
      BOM !in enqueued ==> Conserved() && MarkFree(unsent, pending)
    }

    constructor ()
      ensures Valid() && Conserved() && enqueued == [] && accepted == []
    {
      pending, inflight, unsent := [], false, [];
      enqueued, accepted, outstanding, stalled := [], [], 0, false;
    }

    /** The head of the pump's loop: cut the pending text into chunks and post the first, or stop. */
    method PumpMore()
      requires unsent == [] && outstanding == 0 && Intact()
      modifies this
      ensures Valid() && pending == [] && !stalled
      ensures inflight <==> old(pending) != []
      ensures Join(unsent) == Encode(old(pending))
      ensures old(Conserved()) ==> Conserved()
      ensures accepted == old(accepted) && enqueued == old(enqueued)
    {
      stalled := false;
      if pending == [] {
        inflight := false;
        return;
      }
      NotEmpty(pending);
      var data := pending;
      pending := [];
      unsent := SplitUtf8Chunks(Encode(data), CHUNK_BYTES);
      inflight := true;
      outstanding := outstanding + 1;
      CutIsInLine(accepted, unsent, data);
    }

    /** A key is posted at once, with everything pending, unless a post is in flight; then it waits. */
    method EnqueueInput(data: Text)
      requires Valid()
      modifies this
      ensures Valid()
      ensures old(Conserved()) ==> Conserved()
      ensures accepted == old(accepted) && enqueued == old(enqueued) + data
      ensures old(inflight) ==> inflight && unsent == old(unsent) && pending == old(pending) + data
      ensures !old(inflight) ==> pending == [] && Join(unsent) == Encode(old(pending) + data)
      ensures data != [] ==> inflight
    {
      TypedMore(accepted + Join(unsent), pending, enqueued, data);
      pending := pending + data;
      enqueued := enqueued + data;
      if !inflight {
        PumpMore();
      }
    }

    /** The post in flight succeeded: the next chunk is posted, or the pending text, or nothing is left. */
    method SendSucceeded()
      requires Valid() && inflight
      modifies this
      ensures Valid()
      ensures old(Conserved()) ==> Conserved()
      ensures accepted == old(accepted) + old(unsent)[0] && enqueued == old(enqueued)
      ensures |old(unsent)| > 1 ==> inflight && unsent == old(unsent)[1..] && pending == old(pending)
      ensures |old(unsent)| == 1 ==>
                pending == [] && Join(unsent) == Encode(old(pending)) && (inflight <==> old(pending) != [])
    {
      FirstAccepted(accepted, unsent, Encode(pending));
      accepted := accepted + unsent[0];
      unsent := unsent[1..];
      outstanding := outstanding - 1;
      if unsent == [] {
        PumpMore();
      } else {
        outstanding := outstanding + 1;
      }
    }

    /** Bytes not accepted yet. */
    ghost function Backlog(): nat
      reads this
    {
      |Join(unsent)| + |Encode(pending)|
    }

    /** The pump's loop when every post succeeds: after at most one post for each byte of the backlog,
        everything typed has been accepted. */
    method PumpInput() returns (posts: nat)
      requires Valid() && (pending != [] ==> inflight)
      modifies this
      ensures Valid() && !inflight && pending == [] && unsent == [] && enqueued == old(enqueued)
      ensures posts <= old(Backlog())
      ensures old(Conserved()) ==> accepted == Encode(enqueued)
    {
      posts := 0;
      while inflight
        invariant Valid() && (pending != [] ==> inflight) && enqueued == old(enqueued)
        invariant posts + Backlog() <= old(Backlog())
        invariant old(Conserved()) ==> Conserved()
        decreases Backlog()
      {
        OnePostShrinks();
        SendSucceeded();
        posts := posts + 1;
      }
      assert Join([]) == [] && accepted + [] + [] == accepted;
    }

    /** The first chunk of the line is not empty. */
    lemma OnePostShrinks()
      requires Valid() && inflight
      ensures |unsent[0]| >= 1 && |Join(unsent)| == |unsent[0]| + |Join(unsent[1..])|
      ensures |unsent| == 1 ==> Join(unsent[1..]) == []
    {
      assert unsent[0] in unsent;
    }

    /** The post in flight failed: what was not sent goes back before the pending text. Nothing is
        lost exactly when no unsent chunk begins with a byte-order mark. */
    method SendFailed()
      requires Valid() && inflight
      modifies this
      ensures Valid() && !inflight && unsent == []
      ensures accepted == old(accepted) && enqueued == old(enqueued)
      ensures pending == old(DecodeChunks(unsent)) + old(pending)
      ensures old(Conserved()) ==> (Conserved() <==> NoBom(old(unsent)))
    {
      var after := DecodeChunks(unsent) + pending;
      PutBack(accepted, unsent, pending, enqueued, after);
      TakeBack(after);
    }

    /** Nothing is in flight any more; after is what is still to be sent. */
    method TakeBack(after: Text)
      modifies `pending, `inflight, `unsent, `outstanding, `stalled
      ensures pending == after && unsent == [] && !inflight && outstanding == 0 && stalled
    {
      pending, unsent, inflight := after, [], false;
      outstanding, stalled := 0, true;
    }
  }
}
