/** The buffered reader of the robust I/O package. */
module RobustIo {
  import opened Basics

  const BUFSIZE := 8192
  const NEWLINE: Byte := 10
  const NUL: Byte := 0

  /** `s` with the bytes `data` from position `at` on. */
  function Put(s: seq<Byte>, at: nat, data: seq<Byte>): (t: seq<Byte>)
    requires at + |data| <= |s|
    ensures |t| == |s|
  {
    s[..at] + data + s[at + |data|..]
  }

  // ----- the descriptor

  /** What one call of read() will do: deliver at most so many bytes, be interrupted, or fail. */
  datatype Reply = Chunk(most: nat) | Interrupted | Failed

  datatype Errno = None | Eintr | Other

  function Failures(plan: seq<Reply>): nat {
    if plan == [] then 0 else (if plan[0] == Failed then 1 else 0) + Failures(plan[1..])
  }

  /** An open file whose remaining bytes are `rest`. The next calls of read()
    * behave as `plan` says, later ones deliver what they can. */
  class Descriptor {
    var rest: seq<Byte>
    var plan: seq<Reply>

    constructor (rest: seq<Byte>, plan: seq<Reply>)
      ensures this.rest == rest && this.plan == plan
    {
      this.rest, this.plan := rest, plan;
    }

    /** read(2): -1 on an interrupt or an error, 0 exactly at the end of
      * the file, else the number of bytes put into `buf`. */
    method Read(buf: array<Byte>) returns (count: int, errno: Errno)
      requires buf.Length > 0
      modifies this, buf
      ensures -1 <= count <= buf.Length && |plan| <= |old(plan)|
      ensures count == -1 ==> |plan| < |old(plan)| && rest == old(rest)
      ensures count == -1 <==> errno != None
      ensures errno == Eintr ==> Failures(plan) == Failures(old(plan))
      ensures errno == Other ==> Failures(plan) < Failures(old(plan))
      ensures count >= 0 ==> Failures(plan) == Failures(old(plan))
      ensures count == 0 ==> rest == [] == old(rest)
      ensures count > 0 ==> old(rest) == buf[..count] + rest
    {
      var reply := Chunk(buf.Length);
      if plan != [] {
        reply := plan[0];
        plan := plan[1..];
      }
      match reply
      case Interrupted => return -1, Eintr;
      case Failed => return -1, Other;
      case Chunk(most) =>
        count, errno := Min(if most == 0 then 1 else most, Min(buf.Length, |rest|)), None;
        forall i | 0 <= i < count {
          buf[i] := rest[i];
        }
        rest := rest[count..];
    }
  }

  // ----- the reader

  /** Why rio_readlineb stops reading characters. */
  datatype LineEnd = Newline | AtEnd | NoRoom | Error

  class Rio {
    const fd: Descriptor
    const buf: array<Byte>
    var cnt: int      // unread bytes in buf; not positive when there are none
    var bufptr: nat

    ghost predicate Valid()
      reads this
    {
      buf.Length == BUFSIZE && (cnt > 0 ==> bufptr + cnt <= BUFSIZE)
    }

    /** The bytes still to be delivered: the unread part of the buffer and what is left in the file. */
    ghost function Stream(): seq<Byte>
      requires Valid()
      reads this, buf, fd
    {
      (if cnt > 0 then buf[bufptr..bufptr + cnt] else []) + fd.rest
    }

    /** rio_readinitb */
    constructor (fd: Descriptor)
      ensures Valid() && this.fd == fd && fresh(buf) && Stream() == fd.rest
    {
      this.fd := fd;
      buf := new Byte[BUFSIZE];
      cnt, bufptr := 0, 0;
    }

    /** Make sure that the buffer holds unread bytes: 1 if it does, 0 at the end of the file, -1 on an error. */
    method Refill() returns (r: int, errno: Errno)
      requires Valid()
      modifies this, fd, buf
      ensures Valid() && Stream() == old(Stream())
      ensures old(cnt) > 0 ==> r == 1 && cnt == old(cnt) && fd.rest == old(fd.rest) && fd.plan == old(fd.plan)
      ensures r <= 0 ==> cnt <= 0
      ensures (r == 1 && cnt > 0 && errno == None) || (r == 0 && old(Stream()) == []) || (r == -1 && errno == Other)
      ensures if r == -1 then Failures(fd.plan) < Failures(old(fd.plan))
              else Failures(fd.plan) == Failures(old(fd.plan))
    {
      errno := None;
      while cnt <= 0
        invariant Valid() && Stream() == old(Stream())
        invariant old(cnt) > 0 ==> cnt == old(cnt) && fd.rest == old(fd.rest) && fd.plan == old(fd.plan)
        invariant Failures(fd.plan) == Failures(old(fd.plan))
        invariant cnt > 0 ==> errno == None
        decreases |fd.plan|, if cnt <= 0 then 1 else 0
      {
        cnt, errno := fd.Read(buf);
        if cnt < 0 {
          if errno != Eintr {
            return -1, errno;
          }
        } else if cnt == 0 {
          return 0, errno;
        } else {
          bufptr := 0;
        }
      }
      r := 1;
    }

    /** rio_read: up to `n` bytes into `usrbuf` from position `at`. */
    method Read(usrbuf: array<Byte>, at: nat, n: nat) returns (count: int, errno: Errno)
      requires Valid() && at + n <= usrbuf.Length && usrbuf != buf
      modifies this, fd, buf, usrbuf
      ensures Valid() && -1 <= count <= n && count <= |old(Stream())|
      ensures count == -1 ==> errno == Other && Stream() == old(Stream()) && usrbuf[..] == old(usrbuf[..])
      ensures if count == -1 then Failures(fd.plan) < Failures(old(fd.plan))
              else Failures(fd.plan) == Failures(old(fd.plan))
      ensures count == 0 ==> n == 0 || old(Stream()) == []
      // min(n, unread) bytes, where the file is read only when there are none unread.
      ensures old(cnt) > 0 ==> count == Min(n, old(cnt)) && fd.rest == old(fd.rest) && fd.plan == old(fd.plan)
      ensures 0 <= count < n ==> cnt <= 0
      ensures count >= 0 ==> Stream() == old(Stream())[count..]
      ensures count >= 0 ==> usrbuf[..] == Put(old(usrbuf[..]), at, old(Stream())[..count])
    {
      count, errno := Refill();
      if count <= 0 {
        return;
      }
      count := if cnt < n then cnt else n;
      CopyOut(usrbuf, at, count);
    }

    /** The memcpy of rio_read. */
    method CopyOut(usrbuf: array<Byte>, at: nat, count: nat)
      requires Valid() && 0 < cnt && count <= cnt && at + count <= usrbuf.Length && usrbuf != buf
      modifies this`bufptr, this`cnt, usrbuf
      ensures Valid() && count <= |old(Stream())| && Stream() == old(Stream())[count..]
      ensures usrbuf[..] == Put(old(usrbuf[..]), at, old(Stream())[..count])
    {
      hide Put;
      ghost var unread := buf[bufptr..bufptr + cnt];
      StreamSplit(unread, fd.rest, count);
      CopyBytes(usrbuf, at, count);
      assert buf[bufptr..bufptr + count] == unread[..count];
      bufptr := bufptr + count;
      cnt := cnt - count;
      assert unread[count..] == if cnt > 0 then buf[bufptr..bufptr + cnt] else [];
    }

    method CopyBytes(usrbuf: array<Byte>, at: nat, count: nat)
      requires bufptr + count <= buf.Length && at + count <= usrbuf.Length && usrbuf != buf
      modifies usrbuf
      ensures usrbuf[..] == Put(old(usrbuf[..]), at, buf[bufptr..bufptr + count])
    {
      ghost var before := usrbuf[..];
      forall i | 0 <= i < count {
        usrbuf[at + i] := buf[bufptr + i];
      }
      PutIs(before, usrbuf[..], at, buf[bufptr..bufptr + count]);
    }

    /** rio_read of up to `n` bytes for rio_readnb, behind the first `at` bytes of `stream`. */
    method ReadMore(usrbuf: array<Byte>, at: nat, n: nat, ghost before: seq<Byte>, ghost stream: seq<Byte>)
      returns (count: int, errno: Errno)
      requires Valid() && 0 < n && at + n <= usrbuf.Length == |before| && usrbuf != buf
      requires at <= |stream| && Stream() == stream[at..] && usrbuf[..] == Put(before, 0, stream[..at])
      modifies this, fd, buf, usrbuf
      ensures Valid() && -1 <= count <= n
      ensures if count == -1 then
                errno == Other && Stream() == stream[at..] && usrbuf[..] == Put(before, 0, stream[..at])
              else
                && at + count <= |stream| && Stream() == stream[at + count..]
                && usrbuf[..] == Put(before, 0, stream[..at + count])
      ensures count == 0 ==> at == |stream|
      ensures if count == -1 then Failures(fd.plan) < Failures(old(fd.plan))
              else Failures(fd.plan) == Failures(old(fd.plan))
    {
      hide Put, Failures, Min;
      count, errno := Read(usrbuf, at, n);
      if count >= 0 {
        PutMore(before, stream, at, count);
      }
    }

    /** rio_readnb: `n` bytes into `usrbuf`, or what is left of the stream; -1 on an error, after `got` bytes. */
    method ReadNB(usrbuf: array<Byte>, n: nat) returns (r: int, ghost got: nat)
      requires Valid() && n <= usrbuf.Length && usrbuf != buf
      modifies this, fd, buf, usrbuf
      ensures Valid() && got <= Min(n, |old(Stream())|)
      ensures Stream() == old(Stream())[got..]
      ensures usrbuf[..] == Put(old(usrbuf[..]), 0, old(Stream())[..got])
      ensures r >= 0 ==> r == got == Min(n, |old(Stream())|) && Failures(fd.plan) == Failures(old(fd.plan))
      ensures r < 0 ==> r == -1 && Failures(fd.plan) < Failures(old(fd.plan))
    {
      hide Put, Failures, Stream;
      var nleft, at := n, 0;
      ghost var stream, before := Stream(), usrbuf[..];
      got := 0;
      PutNone(before);
      while nleft > 0
        invariant Valid() && at == got == n - nleft <= Min(n, |stream|)
        invariant Stream() == stream[got..]
        invariant usrbuf[..] == Put(before, 0, stream[..got])
        invariant Failures(fd.plan) == Failures(old(fd.plan))
      {
        var nread, errno := ReadMore(usrbuf, at, nleft, before, stream);
        if nread < 0 {
          if errno == Eintr {
            nread := 0;
          } else {
            return -1, got;
          }
        } else if nread == 0 {
          break;
        }
        nleft := nleft - nread;
        at := at + nread;
        got := got + nread;
      }
      r := n - nleft;
    }

    /** rio_read of one character. */
    method ReadChar() returns (rc: int, c: Byte)
      requires Valid()
      modifies this, fd, buf
      ensures Valid() && -1 <= rc <= 1
      ensures if rc == 1 then old(Stream()) != [] && c == old(Stream())[0] && Stream() == old(Stream())[1..]
              else Stream() == old(Stream())
      ensures rc == 0 ==> old(Stream()) == []
      ensures if rc == -1 then Failures(fd.plan) < Failures(old(fd.plan))
              else Failures(fd.plan) == Failures(old(fd.plan))
    {
      var cell := new Byte[1];
      var errno;
      rc, errno := Read(cell, 0, 1);
      c := cell[..][0];
    }

    /** rio_readlineb: a line into `usrbuf`, with a NUL behind it; 0 at the
      * end of the stream, -1 on an error, after `got` bytes. */
    method ReadLineB(usrbuf: array<Byte>, maxlen: nat) returns (r: int, ghost got: nat)
      requires Valid() && maxlen <= usrbuf.Length && 0 < usrbuf.Length && usrbuf != buf
      modifies this, fd, buf, usrbuf
      ensures Valid() && got <= LineLength(old(Stream()), Room(maxlen)) && got < usrbuf.Length
      ensures Stream() == old(Stream())[got..]
      ensures usrbuf[..] == Put(old(usrbuf[..]), 0, if r > 0 then old(Stream())[..got] + [NUL]
              else old(Stream())[..got])
      ensures r >= 0 ==> got == LineLength(old(Stream()), Room(maxlen)) && Failures(fd.plan) == Failures(old(fd.plan))
      ensures r == 0 <==> r >= 0 && old(Stream()) == [] && maxlen > 1
      ensures r > 0 ==> r == if got > 0 && old(Stream())[got - 1] == NEWLINE then got else got + 1
      ensures r < 0 ==> r == -1 && Failures(fd.plan) < Failures(old(fd.plan))
    {
      hide LineLength, Put, Failures;
      ghost var stream, before := Stream(), usrbuf[..];
      var n, at, end := FillLine(usrbuf, maxlen);
      got := at;
      if end == Error {
        return -1, got;
      }
      if end == AtEnd && n == 1 {
        return 0, got;
      }
      Store(usrbuf, at, NUL);
      PutBehind(before, stream[..got], NUL);
      r := n;
    }

    /** Read a character and store it: the byte number `at` of `stream`. */
    method ReadNext(usrbuf: array<Byte>, at: nat, ghost before: seq<Byte>, ghost stream: seq<Byte>)
      returns (rc: int, c: Byte)
      requires Valid() && at < usrbuf.Length == |before| && usrbuf != buf && at <= |stream| && Stream() == stream[at..]
      requires usrbuf[..] == Put(before, 0, stream[..at])
      modifies this, fd, buf, usrbuf
      ensures Valid() && -1 <= rc <= 1
      ensures if rc == 1 then
                && at < |stream| && c == stream[at] && Stream() == stream[at + 1..]
                && usrbuf[..] == Put(before, 0, stream[..at + 1])
              else Stream() == stream[at..] && usrbuf[..] == Put(before, 0, stream[..at])
      ensures rc == 0 ==> at == |stream|
      ensures if rc == -1 then Failures(fd.plan) < Failures(old(fd.plan))
              else Failures(fd.plan) == Failures(old(fd.plan))
    {
      hide Put, Failures;
      rc, c := ReadChar();
      if rc == 1 {
        assert stream[at..][1..] == stream[at + 1..];
        StoreNext(usrbuf, at, c, before, stream);
      }
    }

    /** The loop of rio_readlineb: `at` bytes are in `usrbuf` when it ends, and `n` is its counter. */
    method FillLine(usrbuf: array<Byte>, maxlen: nat) returns (n: nat, at: nat, end: LineEnd)
      requires Valid() && maxlen <= usrbuf.Length && 0 < usrbuf.Length && usrbuf != buf
      modifies this, fd, buf, usrbuf
      ensures Valid() && LineRead(old(Stream()), maxlen, n, at, end) && Stream() == old(Stream())[at..]
      ensures usrbuf[..] == Put(old(usrbuf[..]), 0, old(Stream())[..at])
      ensures if end == Error then Failures(fd.plan) < Failures(old(fd.plan))
              else Failures(fd.plan) == Failures(old(fd.plan))
    {
      hide LineRead, Plain, Put, Failures;
      n, at := 1, 0;
      ghost var stream, before := Stream(), usrbuf[..];
      PutNone(before);
      PlainNone(stream);
      end := NoRoom;
      while n < maxlen
        invariant Valid() && at == n - 1 && at <= Room(maxlen) && at <= |stream|
        invariant Stream() == stream[at..]
        invariant usrbuf[..] == Put(before, 0, stream[..at])
        invariant Failures(fd.plan) == Failures(old(fd.plan))
        invariant Plain(stream, at) && end == NoRoom
      {
        var rc, c := ReadNext(usrbuf, at, before, stream);
        ghost var read := at;
        if rc == 1 {
          at := at + 1;
          if c == NEWLINE {
            end := Newline;
          }
        } else if rc == 0 {
          end := AtEnd;
        } else {
          end := Error;
        }
        LineGoesOn(stream, maxlen, n, read, at, end);
        if end != NoRoom {
          return;
        }
        n := n + 1;
      }
      LineFull(stream, maxlen, n, at);
    }
  }

  /** Taking the first unread bytes of the stream. */
  lemma StreamSplit(unread: seq<Byte>, rest: seq<Byte>, count: nat)
    requires count <= |unread|
    ensures (unread + rest)[..count] == unread[..count] && (unread + rest)[count..] == unread[count..] + rest
  {
  }

  lemma PutIs(s: seq<Byte>, t: seq<Byte>, at: nat, data: seq<Byte>)
    requires |t| == |s| && at + |data| <= |s|
    requires forall i :: 0 <= i < |data| ==> t[at + i] == data[i]
    requires forall i :: 0 <= i < at || at + |data| <= i < |s| ==> t[i] == s[i]
    ensures t == Put(s, at, data)
  {
    forall i | 0 <= i < |s|
      ensures t[i] == Put(s, at, data)[i]
    {
      assert at <= i < at + |data| ==> t[at + (i - at)] == data[i - at];
    }
  }

  lemma PutMore(s: seq<Byte>, stream: seq<Byte>, got: nat, more: nat)
    requires got + more <= |stream| && got + more <= |s|
    ensures Put(Put(s, 0, stream[..got]), got, stream[got..][..more]) == Put(s, 0, stream[..got + more])
  {
    assert stream[..got + more] == stream[..got] + stream[got..][..more];
  }

  lemma PutNone(s: seq<Byte>)
    ensures Put(s, 0, []) == s
  {
  }

  lemma PutBehind(s: seq<Byte>, data: seq<Byte>, b: Byte)
    requires |data| < |s|
    ensures Put(Put(s, 0, data), |data|, [b]) == Put(s, 0, data + [b])
  {
  }

  method Store(a: array<Byte>, at: nat, b: Byte)
    requires at < a.Length
    modifies a
    ensures a[..] == Put(old(a[..]), at, [b])
  {
    a[at] := b;
  }

  /** Store the next byte of `stream`, the first `at` of which are in place. */
  method StoreNext(a: array<Byte>, at: nat, b: Byte, ghost before: seq<Byte>, ghost stream: seq<Byte>)
    requires at < a.Length == |before| && at < |stream| && stream[at] == b && a[..] == Put(before, 0, stream[..at])
    modifies a
    ensures a[..] == Put(before, 0, stream[..at + 1])
  {
    hide Put;
    Store(a, at, b);
    assert [b] == stream[at..][..1];
    PutMore(before, stream, at, 1);
  }

  // ----- lines

  /** The number of bytes that fit into a line buffer of `maxlen` bytes before the NUL. */
  function Room(maxlen: nat): nat {
    if maxlen == 0 then 0 else maxlen - 1
  }

  /** The length of the line that starts `s`: up to and with the first newline,
    * but at most `max` bytes, and no further than the end. */
  function LineLength(s: seq<Byte>, max: nat): (k: nat)
    ensures k <= |s| && k <= max
  {
    if max == 0 || s == [] then 0 else if s[0] == NEWLINE then 1 else 1 + LineLength(s[1..], max - 1)
  }

  ghost predicate IsLine(s: seq<Byte>, max: nat, k: nat) {
    && k <= |s| && k <= max
    && (forall i :: 0 <= i < k - 1 ==> s[i] != NEWLINE)
    && (k == max || k == |s| || (k > 0 && s[k - 1] == NEWLINE))
  }

  /** That is the only prefix that has no newline inside and ends with one, at the limit or at the end. */
  lemma {:induction false} LineLengthIsLine(s: seq<Byte>, max: nat, k: nat)
    ensures k == LineLength(s, max) <==> IsLine(s, max, k)
  {
    if max == 0 || s == [] {
    } else if s[0] == NEWLINE {
      assert IsLine(s, max, k) ==> k == 1;
    } else if k > 0 {
      LineLengthIsLine(s[1..], max - 1, k - 1);
      assert forall i :: 0 <= i < |s| - 1 ==> s[1..][i] == s[i + 1];
      assert forall i :: 0 <= i < k - 2 && i < |s| - 1 ==> s[i + 1] == s[1..][i];
    }
  }

  /** The first `k` bytes have no newline. */
  ghost predicate Plain(s: seq<Byte>, k: nat) {
    k <= |s| && forall i :: 0 <= i < k ==> s[i] != NEWLINE
  }

  lemma PlainNone(s: seq<Byte>)
    ensures Plain(s, 0)
  {
  }

  /** What has been read of a line when the loop ends because of `end`. */
  ghost predicate LineRead(s: seq<Byte>, maxlen: nat, n: nat, at: nat, end: LineEnd) {
    && at <= |s| && at <= Room(maxlen)
    && (if end == Error then at <= LineLength(s, Room(maxlen)) else at == LineLength(s, Room(maxlen)))
    && match end
       case Newline => n == at > 0 && s[at - 1] == NEWLINE
       case AtEnd => n == at + 1 && at == |s| && n < maxlen && (at > 0 ==> s[at - 1] != NEWLINE)
       case NoRoom => n == at + 1 && maxlen <= n && (at > 0 ==> s[at - 1] != NEWLINE)
       case Error => true
  }

  /** One round of the loop: from `read` bytes without a newline to `at`. */
  lemma LineGoesOn(s: seq<Byte>, maxlen: nat, n: nat, read: nat, at: nat, end: LineEnd)
    requires Plain(s, read) && n == read + 1 < maxlen
    requires match end
             case Newline => at == read + 1 <= |s| && s[read] == NEWLINE
             case NoRoom => at == read + 1 <= |s| && s[read] != NEWLINE
             case AtEnd => at == read == |s|
             case Error => at == read
    ensures if end == NoRoom then Plain(s, at) else LineRead(s, maxlen, n, at, end)
  {
    LineLengthIsLine(s, Room(maxlen), LineLength(s, Room(maxlen)));
    LineLengthIsLine(s, Room(maxlen), at);
  }

  lemma LineFull(s: seq<Byte>, maxlen: nat, n: nat, at: nat)
    requires Plain(s, at) && n == at + 1 && maxlen <= n && at <= Room(maxlen)
    ensures LineRead(s, maxlen, n, at, NoRoom)
  {
    LineLengthIsLine(s, Room(maxlen), at);
  }

  // ----- reading line after line

  /** The lines that successive calls deliver into a buffer of `maxlen` bytes, at least two. */
  function Lines(s: seq<Byte>, maxlen: nat): (lines: seq<seq<Byte>>)
    requires maxlen > 1
  {
    var k := LineLength(s, Room(maxlen));
    if s == [] then [] else [s[..k]] + Lines(s[k..], maxlen)
  }

  function Join(lines: seq<seq<Byte>>): seq<Byte> {
    if lines == [] then [] else lines[0] + Join(lines[1..])
  }

  /** A line that fits the buffer, is not empty and has a newline at its end only, if at all. */
  ghost predicate Proper(l: seq<Byte>, maxlen: nat) {
    0 < |l| < maxlen && forall i :: 0 <= i < |l| - 1 ==> l[i] != NEWLINE
  }

  /** A line that ends with a newline or fills the buffer. */
  ghost predicate Finished(l: seq<Byte>, maxlen: nat) {
    l != [] && (l[|l| - 1] == NEWLINE || |l| == maxlen - 1)
  }

  lemma FirstLine(s: seq<Byte>, maxlen: nat)
    requires maxlen > 1 && s != []
    ensures var k := LineLength(s, Room(maxlen));
      0 < k && Proper(s[..k], maxlen) && (k < |s| ==> Finished(s[..k], maxlen))
  {
    hide LineLength;
    var k := LineLength(s, Room(maxlen));
    LineLengthIsLine(s, maxlen - 1, k);
    LineLengthIsLine(s, maxlen - 1, 0);
    assert s[..k] != [] && s[..k][k - 1] == s[k - 1];
  }

  /** Together they are the stream; none is empty or too long, a newline is always the last byte of its line, and only
    * the last line may end otherwise while there is room for more. */
  lemma {:induction false} LinesJoin(s: seq<Byte>, maxlen: nat)
    requires maxlen > 1
    ensures Join(Lines(s, maxlen)) == s
    ensures forall l :: l in Lines(s, maxlen) ==> Proper(l, maxlen)
    ensures forall i :: 0 <= i < |Lines(s, maxlen)| - 1 ==> Finished(Lines(s, maxlen)[i], maxlen)
    decreases |s|
  {
    hide LineLength, Proper, Finished;
    if s != [] {
      var k := LineLength(s, Room(maxlen));
      FirstLine(s, maxlen);
      if k == |s| {
        assert s[k..] == [];
      }
      LinesJoin(s[k..], maxlen);
      assert Lines(s, maxlen) == [s[..k]] + Lines(s[k..], maxlen);
      assert Lines(s, maxlen)[1..] == Lines(s[k..], maxlen);
      assert s == s[..k] + s[k..];
    }
  }
}
