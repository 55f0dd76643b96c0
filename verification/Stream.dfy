/** io.Reader and io.Writer: a connection that hands its bytes over in arbitrary pieces. */
module Stream {
  import opened Bytes

  datatype Error =
    | EOF
    | UnexpectedEOF
    | ShortBuffer
    | BadKey
    | Malformed(what: string)
    | Panic(why: string)

  datatype Result<+T> = Ok(value: T) | Err(error: Error)

  datatype Option<+T> = None | Some(value: T)

  /** What is left of s after io.ReadFull with an n-byte buffer. */
  function AfterFull(s: Bytes, n: nat): Bytes {
    if n <= |s| then s[n..] else []
  }

  /** The error of io.ReadFull on a stream that ends after s, too short for the buffer. */
  function TooShort(s: Bytes): Error {
    if s == [] then EOF else UnexpectedEOF
  }

  /** What io.ReadFull with an n-byte buffer returns on a stream that delivers s and then ends. */
  function Full(s: Bytes, n: nat): Result<Bytes> {
    if n <= |s| then Ok(s[..n]) else Err(TooShort(s))
  }

  /** Bytes already available for reading do not depend on what arrives behind them. */
  lemma FullExtends(s: Bytes, n: nat, more: Bytes)
    requires n <= |s|
    ensures Full(s + more, n) == Full(s, n) && AfterFull(s + more, n) == AfterFull(s, n) + more
  {
    assert (s + more)[..n] == s[..n];
    assert (s + more)[n..] == s[n..] + more;
  }

  /** One Read with an n-byte buffer takes this from the pieces, */
  function FirstBytes(pieces: seq<Bytes>, n: nat): Bytes
    requires pieces != []
  {
    pieces[0][..Min(n, |pieces[0]|)]
  }

  /** and leaves these. */
  function AfterBytes(pieces: seq<Bytes>, n: nat): seq<Bytes>
    requires pieces != []
  {
    if n < |pieces[0]| then [pieces[0][n..]] + pieces[1..] else pieces[1..]
  }

  lemma ReadSplits(pieces: seq<Bytes>, n: nat)
    requires pieces != []
    ensures FirstBytes(pieces, n) + Concat(AfterBytes(pieces, n)) == Concat(pieces)
  {
    var piece := pieces[0];
    if n < |piece| {
      var after := AfterBytes(pieces, n);
      assert after[0] == piece[n..] && after[1..] == pieces[1..];
      assert piece == piece[..n] + piece[n..];
      Assoc(piece[..n], piece[n..], Concat(pieces[1..]));
    }
  }

  /** No Read returns zero bytes without an error. */
  predicate NoEmptyPiece(pieces: seq<Bytes>) {
    forall i :: 0 <= i < |pieces| ==> pieces[i] != []
  }

  lemma NoEmptyPieceAfter(pieces: seq<Bytes>, n: nat)
    requires pieces != [] && NoEmptyPiece(pieces)
    ensures NoEmptyPiece(AfterBytes(pieces, n)) && (n > 0 ==> FirstBytes(pieces, n) != [])
  {
  }

  /**
   * One side of a connection. `incoming` lists the pieces the coming Read calls meet, cut wherever the
   * network cut them; the stream ends after the last one. `outgoing` lists the Write calls made.
   */
  class ByteStream {
    var incoming: seq<Bytes>
    var outgoing: seq<Bytes>

    constructor (pieces: seq<Bytes>)
      ensures incoming == pieces && outgoing == []
    {
      incoming, outgoing := pieces, [];
    }

    ghost function Unread(): Bytes
      reads this
    {
      Concat(incoming)
    }

    /** At most n bytes, never past the end of the piece at hand. */
    method Read(n: nat) returns (r: Result<Bytes>)
      modifies this`incoming
      ensures r == if old(incoming) == [] then Err(EOF) else Ok(FirstBytes(old(incoming), n))
      ensures incoming == if old(incoming) == [] then [] else AfterBytes(old(incoming), n)
      ensures r.Ok? ==> |r.value| <= n && r.value + Unread() == old(Unread())
      ensures r.Ok? ==> |incoming| < |old(incoming)| || (|incoming| == |old(incoming)| && |r.value| == n)
    {
      if incoming == [] {
        return Err(EOF);
      }
      ReadSplits(incoming, n);
      r := Ok(FirstBytes(incoming, n));
      incoming := AfterBytes(incoming, n);
    }

    /** io.ReadFull: the answer depends on the bytes alone, not on how the network cut them. */
    method ReadFull(n: nat) returns (r: Result<Bytes>)
      modifies this`incoming
      ensures r == Full(old(Unread()), n)
      ensures Unread() == AfterFull(old(Unread()), n)
    {
      ghost var all := Unread();
      var got: Bytes := [];
      while |got| < n
        invariant |got| <= n && got + Unread() == all
        decreases |incoming|, n - |got|
      {
        var piece := Read(n - |got|);
        if piece.Err? {
          assert got == all;
          return Err(if got == [] then EOF else UnexpectedEOF);
        }
        got := got + piece.value;
      }
      assert got == all[..n];
      r := Ok(got);
    }

    method Write(dat: Bytes)
      modifies this`outgoing
      ensures outgoing == old(outgoing) + [dat]
    {
      outgoing := outgoing + [dat];
    }
  }
}
