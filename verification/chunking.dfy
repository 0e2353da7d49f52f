/**
 * The on-disk framing of an encrypted vault entry, as the repository's
 * EncryptFileBar writes it and DecryptFile reads it:
 *
 *   nonce (12 bytes) ++ Seal(c1) ++ Seal(c2) ++ ...
 *
 * where c1, c2, ... are the consecutive chunks of at most 4096 plaintext
 * bytes the encrypt loop reads, every chunk is sealed with the same header
 * nonce, and the decrypt loop reads the body back in pieces of at most
 * 4096 + 16 bytes. AES-GCM itself is not modelled: `Aead` carries its two
 * operations as uninterpreted functions, and `Sound` states the only facts
 * about them the proofs use.
 */
module Chunking {
  import opened Common

  const NonceSize: nat := 12
  const ChunkSize: nat := 4096
  const TagSize: nat := 16
  /** The decrypt buffer: one plaintext chunk plus the GCM overhead. */
  const SealedChunkSize: nat := ChunkSize + TagSize

  /** AES-GCM with no additional data: Seal(key, nonce, plaintext) and Open(key, nonce, sealed). */
  datatype Aead = Aead(seal: (Bytes, Bytes, Bytes) -> Bytes, open: (Bytes, Bytes, Bytes) -> Option<Bytes>)

  /**
   * What GCM guarantees and the proofs rely on: a sealed message is its
   * plaintext plus a 16-byte tag, Open undoes Seal under the same key and
   * nonce, and Open accepts nothing shorter than a tag.
   */
  ghost predicate Sound(g: Aead) {
    && (forall k, n, x :: |g.seal(k, n, x)| == |x| + TagSize)
    && (forall k, n, x :: g.open(k, n, g.seal(k, n, x)) == Some(x))
    && (forall k, n, c :: g.open(k, n, c).Some? ==> |c| == |g.open(k, n, c).value| + TagSize)
  }

  function Flatten(parts: seq<Bytes>): (s: Bytes)
  {
    if parts == [] then [] else parts[0] + Flatten(parts[1..])
  }

  /**
   * The consecutive reads of a loop that asks for `size` bytes at a time
   * from a stream holding `s` and stops at the first empty read.
   */
  function Split(s: Bytes, size: nat): (parts: seq<Bytes>)
    requires size > 0
    ensures Flatten(parts) == s
    ensures forall i :: 0 <= i < |parts| ==> 0 < |parts[i]| <= size
    ensures forall i :: 0 <= i < |parts| - 1 ==> |parts[i]| == size
    decreases |s|
  {
    if |s| == 0 then []
    else
      var n := Min(|s|, size);
      assert s[..n] + s[n..] == s;
      [s[..n]] + Split(s[n..], size)
  }

  /** The plaintext chunks the encrypt loop reads. */
  function Chunks(x: Bytes): seq<Bytes>
  {
    Split(x, ChunkSize)
  }

  /** The sealed pieces the decrypt loop reads. */
  function Pieces(y: Bytes): seq<Bytes>
  {
    Split(y, SealedChunkSize)
  }

  /** Seal every chunk with one key and one nonce. */
  function SealEach(g: Aead, key: Bytes, nonce: Bytes, cs: seq<Bytes>): (ss: seq<Bytes>)
    ensures |ss| == |cs|
  {
    if cs == [] then [] else [g.seal(key, nonce, cs[0])] + SealEach(g, key, nonce, cs[1..])
  }

  /** The body (everything after the header) that EncryptFileBar writes for plaintext `x`. */
  function SealChunks(g: Aead, key: Bytes, nonce: Bytes, x: Bytes): Bytes
    decreases |x|
  {
    if |x| == 0 then []
    else
      var n := Min(|x|, ChunkSize);
      g.seal(key, nonce, x[..n]) + SealChunks(g, key, nonce, x[n..])
  }

  /** What DecryptFile writes for body `y`, and whether every piece opened. */
  datatype Opened = Opened(plain: Bytes, complete: bool)

  /**
   * DecryptFile's loop over the body `y`: open consecutive pieces of at most
   * SealedChunkSize bytes with the header nonce, emitting each plaintext,
   * and stop at the first piece that fails to open.
   */
  function OpenPieces(g: Aead, key: Bytes, nonce: Bytes, y: Bytes): Opened
    decreases |y|
  {
    if |y| == 0 then Opened([], true)
    else
      var m := Min(|y|, SealedChunkSize);
      match g.open(key, nonce, y[..m])
      case None => Opened([], false)
      case Some(p) =>
        var rest := OpenPieces(g, key, nonce, y[m..]);
        Opened(p + rest.plain, rest.complete)
  }

  /** The number of chunks is the plaintext length divided by 4096, rounded up. */
  lemma {:induction false} ChunkCount(x: Bytes)
    ensures |Chunks(x)| == (|x| + ChunkSize - 1) / ChunkSize
    decreases |x|
  {
    if |x| > ChunkSize {
      ChunkCount(x[ChunkSize..]);
    }
  }

  /** The body is exactly the chunks sealed one after another, all under the header nonce. */
  lemma {:induction false} SealChunksIsSealEach(g: Aead, key: Bytes, nonce: Bytes, x: Bytes)
    ensures SealChunks(g, key, nonce, x) == Flatten(SealEach(g, key, nonce, Chunks(x)))
    decreases |x|
  {
    if |x| > 0 {
      var n := Min(|x|, ChunkSize);
      var cs := Chunks(x);
      assert cs == [x[..n]] + Chunks(x[n..]);
      assert cs[1..] == Chunks(x[n..]);
      SealChunksIsSealEach(g, key, nonce, x[n..]);
    }
  }

  /** Every chunk gains exactly one 16-byte tag: the body is |x| + 16 * ceil(|x| / 4096) bytes. */
  lemma {:induction false} SealedLength(g: Aead, key: Bytes, nonce: Bytes, x: Bytes)
    requires Sound(g)
    ensures |SealChunks(g, key, nonce, x)| == |x| + TagSize * |Chunks(x)|
    ensures |SealChunks(g, key, nonce, x)| == |x| + TagSize * ((|x| + ChunkSize - 1) / ChunkSize)
    decreases |x|
  {
    ChunkCount(x);
    if |x| > 0 {
      var n := Min(|x|, ChunkSize);
      SealedLength(g, key, nonce, x[n..]);
      assert Chunks(x) == [x[..n]] + Chunks(x[n..]);
    }
  }

  /**
   * Chunk boundaries line up: the pieces the decrypt loop reads from the
   * body are exactly the sealed chunks the encrypt loop wrote.
   */
  lemma {:induction false} PiecesAlign(g: Aead, key: Bytes, nonce: Bytes, x: Bytes)
    requires Sound(g)
    ensures Pieces(SealChunks(g, key, nonce, x)) == SealEach(g, key, nonce, Chunks(x))
    decreases |x|
  {
    if |x| > 0 {
      var n := Min(|x|, ChunkSize);
      var c := g.seal(key, nonce, x[..n]);
      var rest := SealChunks(g, key, nonce, x[n..]);
      var y := c + rest;
      assert |c| == n + TagSize;
      if n < ChunkSize {
        assert x[n..] == [];
        assert y == c;
        assert Pieces(y) == [c];
      } else {
        assert y[..SealedChunkSize] == c && y[SealedChunkSize..] == rest;
        PiecesAlign(g, key, nonce, x[n..]);
      }
      assert Chunks(x) == [x[..n]] + Chunks(x[n..]);
    }
  }

  /** DecryptFile's loop inverts EncryptFileBar's loop, including for an empty plaintext. */
  lemma {:induction false} OpenSealed(g: Aead, key: Bytes, nonce: Bytes, x: Bytes)
    requires Sound(g)
    ensures OpenPieces(g, key, nonce, SealChunks(g, key, nonce, x)) == Opened(x, true)
    decreases |x|
  {
    if |x| > 0 {
      var n := Min(|x|, ChunkSize);
      var c := g.seal(key, nonce, x[..n]);
      var rest := SealChunks(g, key, nonce, x[n..]);
      var y := c + rest;
      assert |c| == n + TagSize;
      if n < ChunkSize {
        assert x[n..] == [];
        assert y == c;
        assert y[..|y|] == c;
      } else {
        assert y[..SealedChunkSize] == c && y[SealedChunkSize..] == rest;
        OpenSealed(g, key, nonce, x[n..]);
      }
      assert x[..n] + x[n..] == x;
    }
  }

  /** Sealing a plaintext that splits on a chunk boundary seals the two halves independently. */
  lemma {:induction false} SealChunksAppend(g: Aead, key: Bytes, nonce: Bytes, a: Bytes, b: Bytes)
    requires |a| % ChunkSize == 0
    ensures SealChunks(g, key, nonce, a + b) == SealChunks(g, key, nonce, a) + SealChunks(g, key, nonce, b)
    decreases |a|
  {
    if |a| > 0 {
      assert (a + b)[..ChunkSize] == a[..ChunkSize];
      assert (a + b)[ChunkSize..] == a[ChunkSize..] + b;
      SealChunksAppend(g, key, nonce, a[ChunkSize..], b);
    } else {
      assert a + b == b;
    }
  }

  /**
   * One nonce for every chunk: two equal full plaintext chunks produce two
   * equal sealed pieces, so repetition in the plaintext shows in the blob.
   */
  lemma RepeatedChunkRepeatsPiece(g: Aead, key: Bytes, nonce: Bytes, c: Bytes, rest: Bytes)
    requires |c| == ChunkSize
    ensures var y := SealChunks(g, key, nonce, c + c + rest);
            var s := g.seal(key, nonce, c);
            |y| >= 2 * |s| && y[..|s|] == s && y[|s|..2 * |s|] == s
  {
    SealChunksAppend(g, key, nonce, c, c + rest);
    SealChunksAppend(g, key, nonce, c, rest);
    assert c + c + rest == c + (c + rest);
    assert SealChunks(g, key, nonce, c) == g.seal(key, nonce, c) by {
      assert c[..ChunkSize] == c;
    }
  }

  /**
   * A failed piece stops the decrypt loop; the plaintext of the pieces before
   * it stays emitted. Splitting the body on a piece boundary, the second half
   * is only read when the first half opened completely.
   */
  lemma {:induction false} OpenPiecesAppend(g: Aead, key: Bytes, nonce: Bytes, a: Bytes, b: Bytes)
    requires |a| % SealedChunkSize == 0
    ensures var ra := OpenPieces(g, key, nonce, a);
            var rb := OpenPieces(g, key, nonce, b);
            OpenPieces(g, key, nonce, a + b) == if ra.complete then Opened(ra.plain + rb.plain, rb.complete) else ra
    decreases |a|
  {
    if |a| > 0 {
      assert (a + b)[..SealedChunkSize] == a[..SealedChunkSize];
      assert (a + b)[SealedChunkSize..] == a[SealedChunkSize..] + b;
      OpenPiecesAppend(g, key, nonce, a[SealedChunkSize..], b);
    } else {
      assert a + b == b;
    }
  }

  /**
   * There is no end marker: a blob cut short on a chunk boundary still
   * decrypts without error, to the matching prefix of the plaintext.
   */
  lemma TruncationOnChunkBoundaryUndetected(g: Aead, key: Bytes, nonce: Bytes, a: Bytes, b: Bytes)
    requires Sound(g)
    requires |a| % ChunkSize == 0
    ensures var y := SealChunks(g, key, nonce, a + b);
            var k := |SealChunks(g, key, nonce, a)|;
            k <= |y| && OpenPieces(g, key, nonce, y[..k]) == Opened(a, true)
  {
    SealChunksAppend(g, key, nonce, a, b);
    var y := SealChunks(g, key, nonce, a + b);
    var k := |SealChunks(g, key, nonce, a)|;
    assert y[..k] == SealChunks(g, key, nonce, a);
    OpenSealed(g, key, nonce, a);
  }
}
