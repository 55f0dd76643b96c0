/** http/http.go: a reader that can look at the head of a request without consuming it. */
module HeaderReading {
  import opened Bytes
  import opened Stream
  import opened Search
  import opened Arrays

  const DEFAULT_SIZE: nat := 1024 * 4
  const EXTENDING_SIZE: nat := 1024 * 2
  const MAX_SIZE: nat := 1024 * 16

  /** An empty line after a line: the end of a head. */
  const SEP: Bytes := [13, 10, 13, 10]

  /** Zeros behind the data cannot complete a separator, so searching the whole array finds what the data holds. */
  lemma ZerosDoNotMatter(s: Bytes, n: nat)
    ensures Index(s + Zeros(n), SEP) == Index(s, SEP)
  {
    if Index(s, SEP).Some? {
      IndexExtends(s, Zeros(n), SEP);
    } else if Index(s + Zeros(n), SEP).Some? {
      IndexBehind(s, Zeros(n), SEP);
      IndexIsFirst(s + Zeros(n), SEP);
      LastByteMatches(s + Zeros(n), Index(s + Zeros(n), SEP).value);
    }
  }

  lemma LastByteMatches(t: Bytes, p: nat)
    requires MatchAt(t, SEP, p)
    ensures t[p + 3] == 10
  {
    assert t[p..p + 4][3] == t[p + 3];
  }

  /** The first empty line ends within the first 14337 bytes. */
  predicate ShortHead(s: Bytes) {
    match Index(s, SEP)
    case None => false
    case Some(p) => p + 4 <= MAX_SIZE - EXTENDING_SIZE + 1
  }

  /** As long as such a head has not been found, there is room for more and there is more to come. */
  lemma ShortHeadIsFound(buffered: Bytes, unread: Bytes)
    requires Index(buffered, SEP) == None
    ensures ShortHead(buffered + unread) ==> |buffered| <= MAX_SIZE - EXTENDING_SIZE && unread != []
  {
    if unread == [] {
      assert buffered + unread == buffered;
    } else if ShortHead(buffered + unread) {
      IndexBehind(buffered, unread, SEP);
    }
  }

  /** The growth loop: the least size, counting up by 2048 to 16 KiB, that leaves 2048 bytes free. */
  method SizeFor(length: nat, end: nat) returns (size: nat)
    requires end <= length <= MAX_SIZE && length % EXTENDING_SIZE == 0
    ensures length <= size <= MAX_SIZE && size % EXTENDING_SIZE == 0
    ensures size > length ==> length - end < EXTENDING_SIZE && size - end < 2 * EXTENDING_SIZE
    ensures size - end < EXTENDING_SIZE ==> size == MAX_SIZE && end > MAX_SIZE - EXTENDING_SIZE
  {
    size := length;
    while size - end < EXTENDING_SIZE && size + EXTENDING_SIZE <= MAX_SIZE
      invariant length <= size <= MAX_SIZE && size % EXTENDING_SIZE == 0
      invariant size > length ==> length - end < EXTENDING_SIZE && size - end < 2 * EXTENDING_SIZE
    {
      size := size + EXTENDING_SIZE;
    }
  }

  class HeaderReader {
    const r: ByteStream
    var buff: array<byte>
    var end: nat

    ghost predicate Valid()
      reads this
    {
      end <= buff.Length && DEFAULT_SIZE <= buff.Length <= MAX_SIZE && buff.Length % EXTENDING_SIZE == 0
    }

    /** Nothing has been consumed yet, so the array behind the data is still as it was made. */
    ghost predicate Untouched()
      requires Valid()
      reads this, buff
    {
      buff[end..] == Zeros(buff.Length - end)
    }

    ghost function Buffered(): Bytes
      requires Valid()
      reads this, buff
    {
      buff[..end]
    }

    /** Everything the reader will deliver: buffered, then still in the connection. */
    ghost function Rest(): Bytes
      requires Valid()
      reads this, buff, r
    {
      Buffered() + r.Unread()
    }

    constructor (r: ByteStream)
      ensures Valid() && Untouched() && this.r == r && fresh(buff) && end == 0 && Rest() == r.Unread()
    {
      this.r := r;
      end := 0;
      buff := new byte[DEFAULT_SIZE](_ => 0);
      new;
      assert Buffered() == [];
    }

    /** Room for at least 2048 more bytes, made in steps of 2048 up to 16 KiB; then the array is replaced. */
    method Extend() returns (ok: bool)
      requires Valid()
      modifies this`buff
      ensures Valid() && Buffered() == old(Buffered())
      ensures if old(buff.Length) - end >= EXTENDING_SIZE then buff == old(buff) else ok ==> fresh(buff)
      ensures !ok ==> buff == old(buff) || fresh(buff)
      ensures old(Untouched()) ==> Untouched()
      ensures ok <==> buff.Length - end >= EXTENDING_SIZE
      ensures !ok ==> end > MAX_SIZE - EXTENDING_SIZE
    {
      var size := SizeFor(buff.Length, end);
      if size > buff.Length {
        ghost var data := Buffered();
        buff := Enlarged(buff, end, size);
        assert Buffered() == data;
      }
      ok := size - end >= EXTENDING_SIZE;
    }

    /** readMore: one read into the free part of the array. */
    method ReadMore() returns (res: Result<nat>)
      requires Valid()
      modifies this`buff, this`end, buff, r`incoming
      ensures Valid() && Rest() == old(Rest()) && (fresh(buff) || buff == old(buff))
      ensures old(Untouched()) ==> Untouched()
      ensures match res
              case Ok(n) =>
                end == old(end) + n && |r.Unread()| + n == |old(r.Unread())| &&
                (n == 0 ==> Buffered() == old(Buffered()))
              case Err(e) =>
                Buffered() == old(Buffered()) && r.incoming == old(r.incoming) &&
                ((e == EOF && r.incoming == []) || (e == ShortBuffer && end > MAX_SIZE - EXTENDING_SIZE))
      ensures NoEmptyPiece(old(r.incoming)) ==> NoEmptyPiece(r.incoming) && (res.Ok? ==> res.value > 0)
    {
      var ok := Extend();
      if !ok {
        return Err(ShortBuffer);
      }
      var room := buff.Length - end;
      if NoEmptyPiece(r.incoming) && r.incoming != [] {
        NoEmptyPieceAfter(r.incoming, room);
      }
      var read := r.Read(room);
      if read.Err? {
        return Err(read.error);
      }
      Store(read.value);
      res := Ok(|read.value|);
    }

    /** Bytes read land behind the data. */
    method Store(got: Bytes)
      requires Valid() && end + |got| <= buff.Length
      modifies this`end, buff
      ensures Valid() && end == old(end) + |got| && Buffered() == old(Buffered()) + got
      ensures Rest() == old(Buffered()) + (got + r.Unread())
      ensures old(Untouched()) ==> Untouched()
    {
      ghost var data, tail := Buffered(), buff[end..];
      Put(buff, end, got);
      end := end + |got|;
      assert buff[end..] == tail[|got|..];
      Assoc(data, got, r.Unread());
    }

    /**
     * PeekHeader up to the parsing of the head (http/header.go), on any reader. It searches the whole array, so
     * what it finds is in the data exactly if it ends there; on a reader nothing was read from it always does,
     * and then it is what stands before the first empty line of the stream, found for certain if that comes early
     * enough, however the stream is cut. It consumes nothing.
     */
    method PeekHeader() returns (res: Result<Bytes>)
      requires Valid()
      modifies this`buff, this`end, buff, r`incoming
      ensures Valid() && Rest() == old(Rest()) && (fresh(buff) || buff == old(buff))
      ensures old(Untouched()) ==> Untouched() && (res.Ok? ==> |res.value| + 4 <= end)
      ensures res.Ok? ==> Index(buff[..], SEP) == Some(|res.value|) && res.value <= buff[..]
      ensures res.Ok? ==> (|res.value| + 4 <= end <==> Index(Buffered(), SEP) == Some(|res.value|))
      ensures res.Ok? && |res.value| + 4 <= end ==> Index(Rest(), SEP) == Some(|res.value|) && res.value <= Rest()
      ensures old(Index(buff[..], SEP)).Some? ==>
                res.Ok? && buff[..] == old(buff[..]) && end == old(end) && r.incoming == old(r.incoming)
      ensures res.Err? ==> Index(Buffered(), SEP) == None
      ensures res.Err? ==> res.error == EOF || (res.error == ShortBuffer && end > MAX_SIZE - EXTENDING_SIZE)
      ensures NoEmptyPiece(old(r.incoming)) ==>
                (res == Err(EOF) ==> r.Unread() == []) && (ShortHead(Rest()) ==> res.Ok?)
    {
      ghost var found := Index(buff[..], SEP);
      ghost var clean := Untouched();
      while true
        invariant Valid() && Rest() == old(Rest()) && (fresh(buff) || buff == old(buff))
        invariant clean ==> Untouched()
        invariant NoEmptyPiece(old(r.incoming)) ==> NoEmptyPiece(r.incoming)
        invariant found.Some? ==> buff[..] == old(buff[..]) && end == old(end) && r.incoming == old(r.incoming)
        decreases |r.Unread()|
      {
        assert buff[..][..end] == Buffered();
        var p := Index(buff[..], SEP);
        if p.Some? {
          WhatIsFound(buff[..], end, r.Unread(), p.value);
          var headerb := buff[..p.value];
          assert headerb == buff[..][..p.value];
          return Ok(headerb);
        }
        SearchIsRight(buff[..], end);
        ShortHeadIsFound(Buffered(), r.Unread());
        var size := ReadMore();
        if size.Err? {
          return Err(size.error);
        }
        if size.value == 0 {
          return Err(EOF);
        }
      }
    }

    /** Read: what is buffered first, then the connection itself. */
    method Read(out: array<byte>) returns (res: Result<nat>)
      requires Valid() && out != buff
      modifies this`end, buff, out, r`incoming
      ensures Valid()
      ensures match res
              case Ok(n) => n <= out.Length && out[..n] + Rest() == old(Rest()) && out[n..] == old(out[n..])
              case Err(e) => e == EOF && old(Rest()) == []
      ensures old(end) == 0 && old(r.incoming) != [] ==> res == Ok(|FirstBytes(old(r.incoming), out.Length)|)
      ensures if old(end) == 0 then end == 0 && buff[..] == old(buff[..])
              else res == Ok(Min(old(end), out.Length)) && end == old(end) - res.value &&
                   buff[..] == Shifted(old(buff[..]), old(end), res.value) && r.incoming == old(r.incoming)
    {
      if end == 0 {
        res := ReadThrough(out);
        return;
      }
      var size := TakeBuffered(out);
      res := Ok(size);
    }

    method TakeBuffered(out: array<byte>) returns (size: nat)
      requires Valid() && out != buff
      modifies this`end, buff, out
      ensures Valid() && size == Min(old(end), out.Length) && end == old(end) - size
      ensures buff[..] == Shifted(old(buff[..]), old(end), size)
      ensures out[..size] + Rest() == old(Rest()) && out[size..] == old(out[size..])
    {
      ghost var data, u := Buffered(), r.Unread();
      size := MoveFront(buff, end, out);
      end := end - size;
      Assoc(data[..size], data[size..], u);
      assert data == data[..size] + data[size..];
    }

    method ReadThrough(out: array<byte>) returns (res: Result<nat>)
      requires Valid() && out != buff && end == 0
      modifies out, r`incoming
      ensures match res
              case Ok(n) => n <= out.Length && out[..n] + Rest() == old(Rest()) && out[n..] == old(out[n..])
              case Err(e) => e == EOF && old(Rest()) == []
      ensures old(r.incoming) != [] ==> res == Ok(|FirstBytes(old(r.incoming), out.Length)|)
    {
      var got := r.Read(out.Length);
      assert Buffered() == [];
      if got.Err? {
        assert old(Rest()) == [];
        return Err(got.error);
      }
      Put(out, 0, got.value);
      assert out[0..|got.value|] == out[..|got.value|];
      assert [] + r.Unread() == r.Unread();
      res := Ok(|got.value|);
    }
  }

  lemma FoundInFront(s: Bytes, more: Bytes, p: nat)
    requires Index(s, SEP) == Some(p)
    ensures p <= |s| && Index(s + more, SEP) == Some(p) && (s + more)[..p] == s[..p]
  {
    IndexExtends(s, more, SEP);
    IndexIsFirst(s, SEP);
  }

  // ---------------------------------------------------------------- after a head has been consumed

  /**
   * Exactly when searching the whole array finds what searching the data finds: the first separator in the array,
   * if there is one, ends within the data.
   */
  lemma SearchIsRight(backing: Bytes, end: nat)
    requires end <= |backing|
    ensures Index(backing, SEP) == Index(backing[..end], SEP) <==>
              match Index(backing, SEP)
              case None => true
              case Some(p) => p + 4 <= end
  {
    var data, behind := backing[..end], backing[end..];
    assert backing == data + behind;
    IndexIsFirst(data, SEP);
    if Index(data, SEP).Some? {
      IndexExtends(data, behind, SEP);
    } else if Index(backing, SEP).Some? {
      IndexBehind(data, behind, SEP);
    }
  }

  /** On a reader nothing was read from it always does. */
  lemma FreshSearchIsRight(backing: Bytes, end: nat)
    requires end <= |backing| && backing[end..] == Zeros(|backing| - end) && Index(backing, SEP).Some?
    ensures Index(backing, SEP).value + 4 <= end
  {
    assert backing == backing[..end] + Zeros(|backing| - end);
    ZerosDoNotMatter(backing[..end], |backing| - end);
    SearchIsRight(backing, end);
  }

  lemma WhatIsFound(backing: Bytes, end: nat, unread: Bytes, p: nat)
    requires end <= |backing| && Index(backing, SEP) == Some(p)
    ensures p + 4 <= |backing|
    ensures backing[end..] == Zeros(|backing| - end) ==> p + 4 <= end
    ensures p + 4 <= end <==> Index(backing[..end], SEP) == Some(p)
    ensures p + 4 <= end ==>
              Index(backing[..end] + unread, SEP) == Some(p) && backing[..p] <= backing[..end] + unread
  {
    IndexIsFirst(backing, SEP);
    SearchIsRight(backing, end);
    if backing[end..] == Zeros(|backing| - end) {
      FreshSearchIsRight(backing, end);
    }
    if p + 4 <= end {
      FoundInFront(backing[..end], unread, p);
    } else {
      IndexIsFirst(backing[..end], SEP);
    }
  }

  /** Reading all that is buffered leaves the array as it was. */
  method ReadAll(h: HeaderReader, out: array<byte>)
    requires h.Valid() && out != h.buff && out.Length == h.end > 0
    modifies h`end, h.buff, out, h.r`incoming
    ensures h.Valid() && h.end == 0 && h.buff[..] == old(h.buff[..])
    ensures out[..] == old(h.Buffered()) && h.r.incoming == old(h.r.incoming)
  {
    ghost var backing, data, u := h.buff[..], h.Buffered(), h.r.Unread();
    var n := h.Read(out);
    AllShifted(backing, |data|);
    assert h.Buffered() == [] && [] + u == u;
    assert out[..] == out[..|data|];
    Cut(out[..], u);
    Cut(data, u);
  }

  lemma AllShifted(backing: Bytes, end: nat)
    requires end <= |backing|
    ensures Shifted(backing, end, end) == backing
  {
    assert backing[end..end] == [];
  }

  /**
   * And when it does not: a head that has been read whole is still in the array, so the next PeekHeader finds it
   * again, though the reader does not hold it any more and nothing was read from the connection.
   */
  method ConsumedHeadIsFoundAgain(h: HeaderReader, out: array<byte>) returns (again: Result<Bytes>)
    requires h.Valid() && out != h.buff && out.Length == h.end > 0
    requires Index(h.Buffered(), SEP) == Some(h.end - 4)
    modifies h, h.buff, h.r`incoming, out
    ensures h.Valid() && h.end == 0 && out[..] == old(h.Buffered())
    ensures h.Rest() == old(h.r.Unread()) && h.r.incoming == old(h.r.incoming)
    ensures again == Ok(old(h.Buffered()[..h.end - 4])) && Index(h.Buffered(), SEP) == None
  {
    ghost var backing, data, p := h.buff[..], h.Buffered(), h.end - 4;
    assert backing == data + backing[h.end..];
    FoundInFront(data, backing[h.end..], p);
    ReadAll(h, out);
    assert h.Buffered() == [];
    again := h.PeekHeader();
    assert again.value == data[..p];
    assert [] + h.r.Unread() == h.r.Unread();
  }
}
