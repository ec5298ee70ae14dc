/** The bounded decoder of a chunked body (src/engine/runtime_http.rs, `chunks`)
    and the framing of section 7.1 of RFC 9112, without extensions or trailers. */
module Chunked {
  import opened Prelude

  const LIMIT: nat := 262_144
  const CR: byte := 0x0D
  const CRLF: bytes := [CR, NEWLINE]

  // ------------------------------------------------------------ hexadecimal

  predicate IsHex(b: byte) {
    IsDigit(b) || 0x41 <= b <= 0x46 || 0x61 <= b <= 0x66
  }

  function HexOf(b: byte): (v: nat)
    requires IsHex(b)
    ensures v < 16
  {
    if IsDigit(b) then b - 0x30 else if b <= 0x46 then b - 0x37 else b - 0x57
  }

  predicate AllHex(t: bytes) {
    forall i :: 0 <= i < |t| ==> IsHex(t[i])
  }

  /** `usize::from_str_radix` at base 16; eight digits never overflow it. */
  function HexValue(t: bytes): nat
    requires AllHex(t)
  {
    if t == [] then 0
    else
      assert IsHex(t[|t| - 1]);
      16 * HexValue(t[..|t| - 1]) + HexOf(t[|t| - 1])
  }

  function HexText(n: nat): (t: bytes)
    ensures |t| >= 1 && AllHex(t)
  {
    var last: byte := if n % 16 < 10 then 0x30 + n % 16 else 0x57 + n % 16;
    if n < 16 then [last] else HexText(n / 16) + [last]
  }

  lemma {:induction false} HexRoundTrip(n: nat)
    ensures HexValue(HexText(n)) == n
  {
    if n >= 16 {
      HexRoundTrip(n / 16);
      assert HexText(n)[..|HexText(n)| - 1] == HexText(n / 16);
    }
  }

  function Pow16(k: nat): nat {
    if k == 0 then 1 else 16 * Pow16(k - 1)
  }

  lemma {:induction false} HexLength(n: nat, k: nat)
    requires k > 0 && n < Pow16(k)
    ensures |HexText(n)| <= k
    decreases k
  {
    if n >= 16 {
      HexLength(n / 16, k - 1);
    }
  }

  // ---------------------------------------------------------------- framing

  datatype Chunk = Chunk(size: bytes, data: bytes)

  /** One to eight hexadecimal digits. */
  predicate SizeText(t: bytes) {
    1 <= |t| <= 8 && AllHex(t)
  }

  /** A hexadecimal digit, in either case. */
  predicate DigitIs(b: byte, v: nat) {
    v < 16 && (b == "0123456789abcdef"[v] as int || b == "0123456789ABCDEF"[v] as int)
  }

  predicate ValueIs(t: bytes, n: nat) {
    if t == [] then n == 0 else DigitIs(t[|t| - 1], n % 16) && ValueIs(t[..|t| - 1], n / 16)
  }

  predicate SizeIs(t: bytes, n: nat) {
    1 <= |t| <= 8 && ValueIs(t, n)
  }

  predicate ChunkOk(c: Chunk) {
    SizeIs(c.size, |c.data|) && c.data != []
  }

  predicate LastOk(last: bytes) {
    SizeIs(last, 0)
  }

  function ChunkBytes(c: Chunk): bytes {
    c.size + [0x0D, 0x0A] + c.data + [0x0D, 0x0A]
  }

  function Framed(chunks: seq<Chunk>, last: bytes): bytes {
    if chunks == [] then last + [0x0D, 0x0A, 0x0D, 0x0A] else ChunkBytes(chunks[0]) + Framed(chunks[1..], last)
  }

  lemma DigitExact(b: byte, v: nat)
    ensures DigitIs(b, v) <==> IsHex(b) && HexOf(b) == v
  {
    forall k | 0 <= k < 10 ensures "0123456789abcdef"[k] as int == 0x30 + k == "0123456789ABCDEF"[k] as int {
    }
    forall k | 10 <= k < 16
      ensures "0123456789abcdef"[k] as int == 0x57 + k && "0123456789ABCDEF"[k] as int == 0x37 + k
    {
    }
  }

  /** A size reads as exactly the number that its digits denote. */
  lemma {:induction false} ValueExact(t: bytes, n: nat)
    ensures ValueIs(t, n) <==> AllHex(t) && HexValue(t) == n
  {
    hide DigitIs;
    if t != [] {
      var init := t[..|t| - 1];
      DigitExact(t[|t| - 1], n % 16);
      ValueExact(init, n / 16);
      if AllHex(t) {
        assert IsHex(t[|t| - 1]);
      }
      assert AllHex(t) <==> AllHex(init) && IsHex(t[|t| - 1]);
    }
  }

  lemma SizeExact(t: bytes, n: nat)
    ensures SizeIs(t, n) <==> SizeText(t) && HexValue(t) == n
  {
    ValueExact(t, n);
  }

  function Body(chunks: seq<Chunk>): bytes {
    if chunks == [] then [] else chunks[0].data + Body(chunks[1..])
  }

  // --------------------------------------------------------------- decoding

  predicate LineAt(s: bytes, k: nat) {
    k + 1 < |s| && s[k] == CR && s[k + 1] == NEWLINE
  }

  /** Where the first line ends, or the length when no line does. */
  function LineEnd(s: bytes): (k: nat)
    ensures k <= |s| && (k < |s| ==> LineAt(s, k))
    ensures forall i :: 0 <= i < k ==> !LineAt(s, i)
  {
    if |s| < 2 then |s|
    else if LineAt(s, 0) then 0
    else
      assert forall i :: 0 < i < |s| ==> LineAt(s, i) == LineAt(s[1..], i - 1);
      LineEnd(s[1..]) + 1
  }

  /** A chunk read from the front: its data and what follows it. */
  datatype Piece = Refused | Done | More(data: bytes, rest: bytes)

  function ReadChunk(s: bytes, budget: nat): (p: Piece)
    ensures p.More? ==> |p.rest| < |s| && 0 < |p.data| <= budget
  {
    var end := LineEnd(s);
    if end == |s| then Refused
    else
      var size := s[..end];
      if !SizeText(size) then Refused
      else
        var n := HexValue(size);
        var after := s[end + 2..];
        if n == 0 then if after == CRLF then Done else Refused
        else if n > budget || |after| < n + 2 || after[n..n + 2] != CRLF then Refused
        else More(after[..n], after[n + 2..])
  }

  function Decode(s: bytes, body: bytes): (r: Option<bytes>)
    requires |body| <= LIMIT
    ensures r.Some? ==> body <= r.value && |r.value| <= LIMIT
    decreases |s|
  {
    match ReadChunk(s, LIMIT - |body|)
    case Refused => None
    case Done => Some(body)
    case More(data, rest) => Decode(rest, body + data)
  }

  /** `chunks`: the body grows and the input shrinks with each chunk. */
  method Chunks(input: bytes) returns (r: Option<bytes>)
    ensures r == Decode(input, [])
  {
    var s := input;
    var body := [];
    while true
      invariant |body| <= LIMIT && Decode(s, body) == Decode(input, [])
      decreases |s|
    {
      var budget: nat := LIMIT - |body|;
      var piece := ReadChunk(s, budget);
      match piece {
        case Refused => return None;
        case Done => return Some(body);
        case More(data, rest) =>
          body := body + data;
          s := rest;
      }
    }
  }

  // ------------------------------------------------------ exactly the framing

  lemma LineEndIs(s: bytes, t: bytes, rest: bytes)
    requires s == t + CRLF + rest && AllHex(t)
    ensures LineEnd(s) == |t| && s[..|t|] == t && s[|t| + 2..] == rest
  {
    forall i | 0 <= i < |t| ensures !LineAt(s, i) {
      assert IsHex(t[i]) && s[i] == t[i];
    }
    assert LineAt(s, |t|);
  }

  lemma ReadsChunk(c: Chunk, rest: bytes, budget: nat)
    requires ChunkOk(c)
    ensures ReadChunk(ChunkBytes(c) + rest, budget) == if |c.data| <= budget then More(c.data, rest) else Refused
  {
    SizeExact(c.size, |c.data|);
    hide HexValue, LineEnd, AllHex, SizeIs;
    var s := ChunkBytes(c) + rest;
    var after := c.data + CRLF + rest;
    assert s == c.size + CRLF + after;
    LineEndIs(s, c.size, after);
    assert after[|c.data|..|c.data| + 2] == CRLF && after[..|c.data|] == c.data && after[|c.data| + 2..] == rest;
  }

  lemma ReadsLast(last: bytes, budget: nat)
    requires LastOk(last)
    ensures ReadChunk(last + [0x0D, 0x0A, 0x0D, 0x0A], budget) == Done
  {
    SizeExact(last, 0);
    hide HexValue, LineEnd, AllHex, SizeIs;
    assert last + [0x0D, 0x0A, 0x0D, 0x0A] == last + CRLF + CRLF;
    LineEndIs(last + CRLF + CRLF, last, CRLF);
  }

  /** Every framing decodes to its body, and is refused when the body is over the
      limit. */
  lemma {:induction false} DecodesFraming(chunks: seq<Chunk>, last: bytes, body: bytes)
    requires LastOk(last) && (forall i :: 0 <= i < |chunks| ==> ChunkOk(chunks[i])) && |body| <= LIMIT
    ensures Decode(Framed(chunks, last), body)
            == if |body + Body(chunks)| <= LIMIT then Some(body + Body(chunks)) else None
    decreases |chunks|
  {
    hide ChunkOk, LastOk, ChunkBytes, ReadChunk;
    if chunks == [] {
      ReadsLast(last, LIMIT - |body|);
      assert body + Body(chunks) == body;
    } else {
      ReadsChunk(chunks[0], Framed(chunks[1..], last), LIMIT - |body|);
      if |body + chunks[0].data| <= LIMIT {
        DecodesFraming(chunks[1..], last, body + chunks[0].data);
        assert body + Body(chunks) == (body + chunks[0].data) + Body(chunks[1..]);
      }
    }
  }

  /** The framing that a decoded input has. */
  ghost function FramingOf(s: bytes, body: bytes): (f: (seq<Chunk>, bytes))
    requires |body| <= LIMIT && Decode(s, body).Some?
    decreases |s|
  {
    var size := s[..LineEnd(s)];
    match ReadChunk(s, LIMIT - |body|)
    case Done => ([], size)
    case More(data, rest) =>
      var f := FramingOf(rest, body + data);
      ([Chunk(size, data)] + f.0, f.1)
  }

  lemma ReadIs(s: bytes, budget: nat)
    ensures var p := ReadChunk(s, budget);
            var size := s[..LineEnd(s)];
            && (p.Done? ==> LastOk(size) && s == size + [0x0D, 0x0A, 0x0D, 0x0A])
            && (p.More? ==> ChunkOk(Chunk(size, p.data)) && s == ChunkBytes(Chunk(size, p.data)) + p.rest)
  {
    hide HexValue, AllHex, SizeIs;
    var end := LineEnd(s);
    if end < |s| {
      var after := s[end + 2..];
      assert s == s[..end] + CRLF + after;
      var p := ReadChunk(s, budget);
      if p.More? {
        var n := |p.data|;
        SizeExact(s[..end], n);
        assert after == after[..n] + CRLF + after[n + 2..];
      } else if p.Done? {
        SizeExact(s[..end], 0);
        assert CRLF + CRLF == [0x0D, 0x0A, 0x0D, 0x0A];
      }
    }
  }

  lemma FramingNext(s: bytes, body: bytes)
    requires |body| <= LIMIT && Decode(s, body).Some?
    ensures var size := s[..LineEnd(s)];
            var p := ReadChunk(s, LIMIT - |body|);
            && !p.Refused?
            && (p.Done? ==> FramingOf(s, body) == ([], size) && Decode(s, body) == Some(body))
            && (p.More? ==>
                  && Decode(p.rest, body + p.data) == Decode(s, body)
                  && FramingOf(s, body).0 == [Chunk(size, p.data)] + FramingOf(p.rest, body + p.data).0
                  && FramingOf(s, body).1 == FramingOf(p.rest, body + p.data).1)
  {
    hide ReadChunk, LineEnd;
  }

  lemma FramedMore(c: Chunk, chunks: seq<Chunk>, last: bytes)
    ensures Framed([c] + chunks, last) == ChunkBytes(c) + Framed(chunks, last)
    ensures Body([c] + chunks) == c.data + Body(chunks)
  {
    assert ([c] + chunks)[1..] == chunks;
  }

  lemma FramedEmpty(last: bytes)
    ensures Framed([], last) == last + [0x0D, 0x0A, 0x0D, 0x0A] && Body([]) == []
  {
  }

  lemma {:induction false} DecodedIsFramed(s: bytes, body: bytes)
    requires |body| <= LIMIT && Decode(s, body).Some?
    ensures var (chunks, last) := FramingOf(s, body);
            && LastOk(last) && (forall i :: 0 <= i < |chunks| ==> ChunkOk(chunks[i]))
            && s == Framed(chunks, last) && Decode(s, body).value == body + Body(chunks)
    decreases |s|
  {
    hide *;
    ReadIs(s, LIMIT - |body|);
    FramingNext(s, body);
    match ReadChunk(s, LIMIT - |body|) {
      case Done =>
        FramedEmpty(s[..LineEnd(s)]);
        assert body + [] == body;
      case More(data, rest) =>
        DecodedIsFramed(rest, body + data);
        var (chunks, last) := FramingOf(rest, body + data);
        FramedMore(Chunk(s[..LineEnd(s)], data), chunks, last);
        assert (body + data) + Body(chunks) == body + (data + Body(chunks));
    }
  }

  /** A body is decoded exactly from its framings, and only within the limit. The
      last size may be any one to eight zeros, not one zero alone. */
  lemma ChunksExact(s: bytes, body: bytes)
    ensures Decode(s, []) == Some(body) <==>
            |body| <= 256 * 1024
            && exists chunks: seq<Chunk>, last: bytes ::
                 LastOk(last) && (forall i :: 0 <= i < |chunks| ==> ChunkOk(chunks[i]))
                 && s == Framed(chunks, last) && body == Body(chunks)
  {
    hide Framed, ChunkOk, LastOk, Body;
    if Decode(s, []) == Some(body) {
      DecodedIsFramed(s, []);
      var (chunks, last) := FramingOf(s, []);
      assert [] + Body(chunks) == Body(chunks);
    }
    forall chunks: seq<Chunk>, last: bytes
      | LastOk(last) && (forall i :: 0 <= i < |chunks| ==> ChunkOk(chunks[i]))
        && s == Framed(chunks, last) && body == Body(chunks) && |body| <= LIMIT
      ensures Decode(s, []) == Some(body)
    {
      DecodesFraming(chunks, last, []);
      assert [] + Body(chunks) == Body(chunks);
    }
  }

  lemma {:induction false} LastIsZeros(last: bytes)
    requires AllHex(last)
    ensures HexValue(last) == 0 <==> forall i :: 0 <= i < |last| ==> last[i] == 0x30
  {
    if last != [] {
      var n := |last| - 1;
      LastIsZeros(last[..n]);
      assert IsHex(last[n]);
    }
  }

  /** The framing of non-empty pieces with the shortest sizes, as a sender writes
      it. */
  function Encode(pieces: seq<bytes>): bytes {
    Framed(ChunksOf(pieces), HexText(0))
  }

  function ChunksOf(pieces: seq<bytes>): (r: seq<Chunk>)
    ensures |r| == |pieces| && forall i :: 0 <= i < |pieces| ==> r[i] == Chunk(HexText(|pieces[i]|), pieces[i])
  {
    if pieces == [] then [] else [Chunk(HexText(|pieces[0]|), pieces[0])] + ChunksOf(pieces[1..])
  }

  lemma {:induction false} BodyOfPieces(pieces: seq<bytes>)
    ensures Body(ChunksOf(pieces)) == Flatten(pieces)
  {
    if pieces != [] {
      assert ChunksOf(pieces)[1..] == ChunksOf(pieces[1..]);
      BodyOfPieces(pieces[1..]);
    }
  }

  lemma {:induction false} PieceWithin(pieces: seq<bytes>, i: nat)
    requires i < |pieces|
    ensures |pieces[i]| <= |Flatten(pieces)|
  {
    if i > 0 {
      PieceWithin(pieces[1..], i - 1);
    }
  }

  /** Decoding undoes chunked encoding of non-empty pieces within the limit. */
  lemma ChunkRoundTrip(pieces: seq<bytes>)
    requires (forall i :: 0 <= i < |pieces| ==> pieces[i] != []) && |Flatten(pieces)| <= LIMIT
    ensures Decode(Encode(pieces), []) == Some(Flatten(pieces))
  {
    hide Decode, Flatten, Framed, HexText, HexValue, Body;
    var chunks := ChunksOf(pieces);
    forall i | 0 <= i < |chunks| ensures ChunkOk(chunks[i]) {
      PieceWithin(pieces, i);
      ShortSize(|pieces[i]|);
    }
    ShortSize(0);
    DecodesFraming(chunks, HexText(0), []);
    BodyOfPieces(pieces);
    assert [] + Flatten(pieces) == Flatten(pieces);
  }

  lemma ShortSize(n: nat)
    requires n <= LIMIT
    ensures SizeIs(HexText(n), n)
  {
    SizeExact(HexText(n), n);
    HexRoundTrip(n);
    assert Pow16(2) == 256 && Pow16(4) == 65_536 && Pow16(6) == 16_777_216;
    HexLength(n, 6);
  }
}
