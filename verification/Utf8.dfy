/** UTF-8 (section 3 of RFC 3629) and the splitter that never cuts a character. */
module Utf8 {
  import opened TerminalDecode

  /** A Unicode scalar value. */
  type Scalar = x: nat | x < 0x110000 && !(0xD800 <= x < 0xE000)

  type Text = seq<Scalar>

  predicate IsContinuation(b: Byte) {
    128 <= b < 192
  }

  function EncodeOne(c: Scalar): (r: seq<Byte>)
    ensures 1 <= |r| <= 4
    ensures !IsContinuation(r[0]) && forall i | 1 <= i < |r| :: IsContinuation(r[i])
  {
    if c < 0x80 then [c]
    else if c < 0x800 then [0xC0 + c / 64, 0x80 + c % 64]
    else if c < 0x10000 then [0xE0 + c / 4096, 0x80 + c / 64 % 64, 0x80 + c % 64]
    else [0xF0 + c / 262144, 0x80 + c / 4096 % 64, 0x80 + c / 64 % 64, 0x80 + c % 64]
  }

  function Encode(t: Text): seq<Byte> {
    if t == [] then [] else EncodeOne(t[0]) + Encode(t[1..])
  }

  ghost predicate Valid(bytes: seq<Byte>) {
    exists t: Text :: Encode(t) == bytes
  }

  lemma {:induction false} EncodeTwo(a: Text, b: Text)
    ensures Encode(a + b) == Encode(a) + Encode(b)
  {
    if a == [] {
      assert a + b == b;
    } else {
      assert (a + b)[1..] == a[1..] + b;
      EncodeTwo(a[1..], b);
    }
  }

  // ---------- Decoding ----------

  function Less(b: Byte, mark: int): int {
    b as int - mark
  }

  /** The value a lead byte and its continuation bytes stand for. */
  function Value(e: seq<Byte>): int
    requires 1 <= |e| <= 4
  {
    if |e| == 1 then e[0]
    else if |e| == 2 then Less(e[0], 0xC0) * 64 + Less(e[1], 0x80)
    else if |e| == 3 then (Less(e[0], 0xE0) * 64 + Less(e[1], 0x80)) * 64 + Less(e[2], 0x80)
    else ((Less(e[0], 0xF0) * 64 + Less(e[1], 0x80)) * 64 + Less(e[2], 0x80)) * 64 + Less(e[3], 0x80)
  }

  function LengthFor(lead: Byte): nat {
    if lead < 0x80 then 1 else if lead < 0xE0 then 2 else if lead < 0xF0 then 3 else 4
  }

  lemma EncodeOneInverts(c: Scalar)
    ensures LengthFor(EncodeOne(c)[0]) == |EncodeOne(c)| && Value(EncodeOne(c)) == c
  {
    SixBits(c);
    SixBits(c / 64);
    SixBits(c / 4096);
  }

  /** The table of RFC 3629: how long the encoding is, the range of its lead byte, and that it is the shortest
      form (a lead of 0xC0 or 0xC1, or of more than 0xF4, never occurs). */
  lemma EncodingIsShortest(c: Scalar)
    ensures |EncodeOne(c)| == 1 <==> c <= 0x7F
    ensures |EncodeOne(c)| == 2 <==> 0x80 <= c <= 0x7FF
    ensures |EncodeOne(c)| == 3 <==> 0x800 <= c <= 0xFFFF
    ensures |EncodeOne(c)| == 4 <==> 0x10000 <= c
    ensures |EncodeOne(c)| == 1 ==> EncodeOne(c)[0] == c
    ensures |EncodeOne(c)| == 2 ==> 0xC2 <= EncodeOne(c)[0] <= 0xDF
    ensures |EncodeOne(c)| == 3 ==> 0xE0 <= EncodeOne(c)[0] <= 0xEF
    ensures |EncodeOne(c)| == 4 ==> 0xF0 <= EncodeOne(c)[0] <= 0xF4
    ensures Value(EncodeOne(c)) == c
  {
    EncodeOneInverts(c);
  }

  lemma SixBits(x: nat)
    ensures x == x / 64 * 64 + x % 64 && x / 4096 == x / 64 / 64 && x / 262144 == x / 4096 / 64
  {}

  const REPLACEMENT: Scalar := 0xFFFD

  predicate IsScalar(x: int) {
    0 <= x < 0x110000 && !(0xD800 <= x < 0xE000)
  }

  /** Character by character, by the length the lead byte announces. */
  function Decode(bytes: seq<Byte>): Text
    decreases |bytes|
  {
    if bytes == [] then []
    else
      var n := LengthFor(bytes[0]);
      if n <= |bytes| && IsScalar(Value(bytes[..n])) then [Value(bytes[..n])] + Decode(bytes[n..])
      else [REPLACEMENT] + Decode(bytes[1..])
  }

  lemma {:induction false} DecodeInvertsEncode(t: Text)
    ensures Decode(Encode(t)) == t
  {
    if t != [] {
      var e := EncodeOne(t[0]);
      EncodeOneInverts(t[0]);
      assert Encode(t)[..|e|] == e && Encode(t)[|e|..] == Encode(t[1..]);
      DecodeInvertsEncode(t[1..]);
      assert t == [t[0]] + t[1..];
    }
  }

  /** On valid bytes encoding undoes decoding. */
  lemma EncodeInvertsDecode(bytes: seq<Byte>)
    requires Valid(bytes)
    ensures Encode(Decode(bytes)) == bytes
  {
    var t: Text :| Encode(t) == bytes;
    DecodeInvertsEncode(t);
  }

  // ---------- Where characters begin ----------

  /** Position e of the encoding is where the k-th character begins. */
  ghost predicate Begins(t: Text, k: nat, e: nat) {
    k <= |t| && |Encode(t[..k])| == e
  }

  /** A byte that is not a continuation byte begins a character. */
  lemma {:induction false} LeadBegins(t: Text, e: nat) returns (k: nat)
    requires e < |Encode(t)| && !IsContinuation(Encode(t)[e])
    ensures Begins(t, k, e)
  {
    var n := |EncodeOne(t[0])|;
    assert forall i | 1 <= i < n :: Encode(t)[i] == EncodeOne(t[0])[i];
    if e == 0 {
      k := 0;
    } else {
      assert Encode(t)[e] == Encode(t[1..])[e - n];
      k := LeadBegins(t[1..], e - n);
      assert t[..k + 1] == [t[0]] + t[1..][..k];
      k := k + 1;
    }
  }

  lemma EncodeThen(t: Text, k: nat)
    requires k < |t|
    ensures Encode(t[..k + 1]) == Encode(t[..k]) + EncodeOne(t[k])
  {
    var last := t[k..k + 1];
    assert t[..k + 1] == t[..k] + last && last[1..] == [];
    EncodeTwo(t[..k], last);
    assert Encode(last) == EncodeOne(t[k]) + Encode(last[1..]);
  }

  lemma EncodeSplit(t: Text, k: nat)
    requires k <= |t|
    ensures Encode(t) == Encode(t[..k]) + Encode(t[k..])
  {
    assert t == t[..k] + t[k..];
    EncodeTwo(t[..k], t[k..]);
  }

  lemma EncodeStarts(t: Text)
    requires t != []
    ensures Encode(t) != [] && Encode(t)[0] == EncodeOne(t[0])[0]
  {
    assert Encode(t) == EncodeOne(t[0]) + Encode(t[1..]);
  }

  lemma NextBegins(t: Text, k: nat, e: nat)
    requires Begins(t, k, e) && k < |t|
    ensures var n := e + |EncodeOne(t[k])|;
            Begins(t, k + 1, n) && n <= |Encode(t)| && (n < |Encode(t)| ==> !IsContinuation(Encode(t)[n]))
  {
    EncodeThen(t, k);
    EncodeSplit(t, k + 1);
    if k + 1 < |t| {
      EncodeStarts(t[k + 1..]);
    } else {
      assert t[k + 1..] == [];
    }
  }

  /** What lies between two beginnings is the encoding of the characters between. */
  lemma SliceIs(t: Text, i: nat, a: nat, j: nat, b: nat)
    requires Begins(t, i, a) && Begins(t, j, b) && a <= b
    ensures b <= |Encode(t)| && Valid(Encode(t)[a..b])
  {
    EncodeSplit(t, j);
    if i > j {
      BeginsOrder(t, j, i);
      EmptyIsValid(Encode(t)[a..b]);
    } else {
      EncodeSplit(t[..j], i);
      assert t[..j][..i] == t[..i];
      assert Encode(t)[a..b] == Encode(t[..j][i..]);
    }
  }

  lemma EmptyIsValid(bytes: seq<Byte>)
    requires bytes == []
    ensures Valid(bytes)
  {
    var t: Text := [];
    assert Encode(t) == bytes;
  }

  lemma BeginsOrder(t: Text, i: nat, j: nat)
    requires i <= j <= |t|
    ensures |Encode(t[..i])| <= |Encode(t[..j])|
  {
    EncodeSplit(t[..j], i);
    assert t[..j][..i] == t[..i];
  }

  // ---------- Splitting ----------

  /** Whether a cut may be made here. */
  predicate CutPoint(bytes: seq<Byte>, e: nat) {
    e == |bytes| || (e < |bytes| && !IsContinuation(bytes[e]))
  }

  /** Between a cut point and any position at least 4 bytes on there is another cut point. */
  lemma CutPointAhead(bytes: seq<Byte>, offset: nat, limit: nat) returns (e: nat)
    requires Valid(bytes) && CutPoint(bytes, offset) && offset < |bytes| && limit >= 4
    ensures offset < e <= offset + limit && CutPoint(bytes, e)
  {
    var t: Text :| Encode(t) == bytes;
    var k := LeadBegins(t, offset);
    assert t[..|t|] == t;
    NextBegins(t, k, offset);
    e := offset + |EncodeOne(t[k])|;
  }

  /** Bytes between two cut points of a valid string are valid. */
  lemma CutIsValid(bytes: seq<Byte>, a: nat, b: nat)
    requires Valid(bytes) && a <= b <= |bytes| && CutPoint(bytes, a) && CutPoint(bytes, b)
    ensures Valid(bytes[a..b])
  {
    var t: Text :| Encode(t) == bytes;
    assert t[..|t|] == t;
    var i, j := |t|, |t|;
    if a < |bytes| { i := LeadBegins(t, a); }
    if b < |bytes| { j := LeadBegins(t, b); }
    SliceIs(t, i, a, j, b);
  }

  lemma {:induction false} JoinTwo(a: seq<seq<Byte>>, b: seq<seq<Byte>>)
    ensures Join(a + b) == Join(a) + Join(b)
  {
    if a == [] {
      assert a + b == b;
    } else {
      assert (a + b)[1..] == a[1..] + b;
      JoinTwo(a[1..], b);
    }
  }

  /** The end of the piece that starts at offset: at most limit on, backed off to a cut point; the
      full limit when there is none, which cannot happen for valid bytes and a limit of 4 or more. */
  method PieceEnd(bytes: seq<Byte>, offset: nat, limit: nat) returns (end: nat)
    requires limit >= 1 && offset < |bytes|
    ensures offset < end <= |bytes| && end <= offset + limit
    ensures Valid(bytes) && limit >= 4 && CutPoint(bytes, offset) ==>
              CutPoint(bytes, end) && (end == |bytes| || end > offset + limit - 4)
  {
    end := if offset + limit < |bytes| then offset + limit else |bytes|;
    if end < |bytes| {
      var last := end;
      ghost var ahead := offset;
      if Valid(bytes) && limit >= 4 && CutPoint(bytes, offset) {
        ahead := CutPointAhead(bytes, offset, limit);
      }
      while end > offset && IsContinuation(bytes[end])
        invariant offset <= end <= last
        invariant ahead <= end
        invariant forall p | end < p <= last :: IsContinuation(bytes[p])
      {
        end := end - 1;
      }
      if Valid(bytes) && limit >= 4 && CutPoint(bytes, offset) {
        ghost var next := CutPointAhead(bytes, end, 4);
      }
      if end == offset {
        end := last;
      }
    }
  }

  lemma JoinGrows(bytes: seq<Byte>, chunks: seq<seq<Byte>>, offset: nat, end: nat)
    requires offset <= end <= |bytes| && Join(chunks) == bytes[..offset]
    ensures Join(chunks + [bytes[offset..end]]) == bytes[..end]
  {
    var piece := bytes[offset..end];
    JoinTwo(chunks, [piece]);
    var single: seq<seq<Byte>> := [piece];
    assert single[1..] == [];
    assert Join([piece]) == piece + Join([]);
    assert bytes[..end] == bytes[..offset] + piece;
  }

  /** Non-empty pieces of at most limit bytes that join to the input; pieces of valid UTF-8 are valid
      UTF-8 once limit leaves room for any one character, and all but the last within 3 bytes of it. */
  method SplitUtf8Chunks(bytes: seq<Byte>, limit: nat) returns (chunks: seq<seq<Byte>>)
    requires limit >= 1
    ensures Join(chunks) == bytes
    ensures forall c | c in chunks :: 1 <= |c| <= limit
    ensures Valid(bytes) && limit >= 4 ==> forall c | c in chunks :: Valid(c)
    ensures Valid(bytes) && limit >= 4 ==> forall i | 0 <= i < |chunks| - 1 :: |chunks[i]| > limit - 4
  {
    chunks := [];
    var offset := 0;
    ghost var whole := Valid(bytes) && limit >= 4;
    if whole && bytes != [] {
      ValidStarts(bytes);
    }
    while offset < |bytes|
      invariant offset <= |bytes| && Join(chunks) == bytes[..offset]
      invariant forall c | c in chunks :: 1 <= |c| <= limit
      invariant whole ==> CutPoint(bytes, offset) && forall c | c in chunks :: Valid(c)
      invariant whole ==> forall i | 0 <= i < |chunks| :: |chunks[i]| > limit - 4 || (offset == |bytes| && i == |chunks| - 1)
    {
      var end := PieceEnd(bytes, offset, limit);
      if whole { CutIsValid(bytes, offset, end); }
      JoinGrows(bytes, chunks, offset, end);
      chunks := chunks + [bytes[offset..end]];
      offset := end;
    }
    assert bytes[..|bytes|] == bytes;
  }

  lemma ValidStarts(bytes: seq<Byte>)
    requires Valid(bytes) && bytes != []
    ensures CutPoint(bytes, 0)
  {
    var t: Text :| Encode(t) == bytes;
    assert bytes[0] == EncodeOne(t[0])[0];
  }
}
