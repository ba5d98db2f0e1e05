/** Successive calls of the buffered reader. */
module RobustIoRuns {
  import opened Basics
  import opened RobustIo

  lemma {:induction false} JoinAppend(pieces: seq<seq<Byte>>, piece: seq<Byte>)
    ensures Join(pieces + [piece]) == Join(pieces) + piece
  {
    if pieces != [] {
      JoinAppend(pieces[1..], piece);
      assert (pieces + [piece])[1..] == pieces[1..] + [piece];
    }
  }

  /** A reader and what its calls have delivered, in any order, over a stream. */
  class Session {
    const rio: Rio
    ghost const stream: seq<Byte>
    ghost var pieces: seq<seq<Byte>>   // the bytes of each call that delivered any

    /** What has been delivered and what is still to be delivered are the stream. */
    ghost predicate Valid()
      reads this, rio, rio.buf, rio.fd
    {
      rio.Valid() && Join(pieces) + rio.Stream() == stream
    }

    constructor (fd: Descriptor)
      ensures Valid() && rio.fd == fd && fresh(rio) && fresh(rio.buf) && stream == fd.rest && pieces == []
    {
      rio := new Rio(fd);
      stream := fd.rest;
      pieces := [];
    }

    /** The call has delivered `piece`. */
    ghost method Deliver(piece: seq<Byte>, before: seq<Byte>)
      requires rio.Valid() && Join(pieces) + before == stream && before == piece + rio.Stream()
      modifies this`pieces
      ensures Valid() && pieces == old(pieces) + if piece == [] then [] else [piece]
    {
      if piece != [] {
        JoinAppend(pieces, piece);
        pieces := pieces + [piece];
      }
    }

    /** rio_readnb */
    method ReadNB(usrbuf: array<Byte>, n: nat) returns (r: int, ghost got: nat)
      requires Valid() && n <= usrbuf.Length && usrbuf != rio.buf
      modifies this`pieces, rio, rio.fd, rio.buf, usrbuf
      ensures Valid() && got <= n && pieces == old(pieces) + if got == 0 then [] else [usrbuf[..got]]
      ensures r >= 0 ==> r == got == Min(n, |stream| - |Join(old(pieces))|)
    {
      hide Join, Put, Failures;
      ghost var before, buffer := rio.Stream(), usrbuf[..];
      r, got := rio.ReadNB(usrbuf, n);
      PutFirst(buffer, usrbuf[..], before[..got]);
      Deliver(before[..got], before);
    }

    /** rio_readlineb */
    method ReadLineB(usrbuf: array<Byte>, maxlen: nat) returns (r: int, ghost got: nat)
      requires Valid() && maxlen <= usrbuf.Length && 0 < usrbuf.Length && usrbuf != rio.buf
      modifies this`pieces, rio, rio.fd, rio.buf, usrbuf
      ensures Valid() && got <= Room(maxlen) && pieces == old(pieces) + if got == 0 then [] else [usrbuf[..got]]
      ensures r >= 0 && maxlen > 1 ==>
                Lines(old(rio.Stream()), maxlen) == (if got == 0 then [] else [usrbuf[..got]])
                  + Lines(rio.Stream(), maxlen)
      ensures r == 0 ==> rio.Stream() == []
    {
      hide Lines, Join, Put, LineLength, Failures;
      ghost var before, buffer := rio.Stream(), usrbuf[..];
      r, got := rio.ReadLineB(usrbuf, maxlen);
      PutLine(buffer, usrbuf[..], before[..got], r > 0);
      if r >= 0 && maxlen > 1 {
        NextLine(before, maxlen);
      }
      Deliver(before[..got], before);
    }
  }

  lemma PutFirst(s: seq<Byte>, t: seq<Byte>, data: seq<Byte>)
    requires |data| <= |s| && t == Put(s, 0, data)
    ensures |t| == |s| && t[..|data|] == data
  {
  }

  /** The same with a NUL behind the data. */
  lemma PutLine(s: seq<Byte>, t: seq<Byte>, data: seq<Byte>, nul: bool)
    requires |data| < |s| && t == Put(s, 0, if nul then data + [NUL] else data)
    ensures |t| == |s| && t[..|data|] == data
  {
    hide Put;
    PutFirst(s, t, if nul then data + [NUL] else data);
    assert data == (data + [NUL])[..|data|];
  }

  lemma NextLine(s: seq<Byte>, maxlen: nat)
    requires maxlen > 1
    ensures var k := LineLength(s, Room(maxlen));
      Lines(s, maxlen) == (if k == 0 then [] else [s[..k]]) + Lines(s[k..], maxlen)
  {
    LineLengthIsLine(s, Room(maxlen), LineLength(s, Room(maxlen)));
  }

  lemma NoLines(maxlen: nat)
    requires maxlen > 1
    ensures Lines([], maxlen) == []
  {
  }

  lemma Regroup(a: seq<seq<Byte>>, b: seq<seq<Byte>>, c: seq<seq<Byte>>)
    ensures a + (b + c) == (a + b) + c
  {
  }

  /** A program that reads line after line into buffers of one size. */
  class LineReader {
    const session: Session
    const maxlen: nat

    ghost predicate Valid()
      reads this, session, session.rio, session.rio.buf, session.rio.fd
    {
      && maxlen > 1 && session.Valid()
      && session.pieces + Lines(session.rio.Stream(), maxlen) == Lines(session.stream, maxlen)
    }

    constructor (fd: Descriptor, maxlen: nat)
      requires maxlen > 1
      ensures Valid() && session.stream == fd.rest && session.pieces == [] && this.maxlen == maxlen
      ensures fresh(session) && fresh(session.rio) && fresh(session.rio.buf) && session.rio.fd == fd
    {
      session := new Session(fd);
      this.maxlen := maxlen;
      new;
      assert Join([]) + fd.rest == fd.rest;
    }

    /** The next line. At the end all lines of the stream have been delivered, and they are the whole stream. */
    method Next(usrbuf: array<Byte>) returns (r: int)
      requires Valid() && maxlen <= usrbuf.Length && usrbuf != session.rio.buf
      modifies session`pieces, session.rio, session.rio.fd, session.rio.buf, usrbuf
      ensures session.Valid() && (r >= 0 ==> Valid())
      ensures r == 0 ==> session.pieces == Lines(session.stream, maxlen) && Join(session.pieces) == session.stream
    {
      hide Lines, Join;
      ghost var before, got := session.pieces, 0;
      r, got := session.ReadLineB(usrbuf, maxlen);
      Regroup(before, if got == 0 then [] else [usrbuf[..got]], Lines(session.rio.Stream(), maxlen));
      if r == 0 {
        NoLines(maxlen);
        LinesJoin(session.stream, maxlen);
      }
    }
  }
}
