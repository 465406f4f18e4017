/**
  Reading and writing over a connection that moves any number of bytes at a time (shared_lib/src/utils.c), and
  the requests and replies sent and read field by field over it. A connection is the bytes still to arrive
  before the peer closes, the bytes written, and bounds on the calls that a signal may yet interrupt and that may
  yet fail for another reason.
*/
module Connections {
  import opened Machine
  import opened Handlers
  import opened Wire

  /** Some of the bytes of the whole, in their order: what is left of a message when writes fail on the way. */
  ghost predicate Within(part: seq<Byte>, whole: seq<Byte>)
    decreases |whole|
  {
    || part == []
    || (whole != [] && (Within(part, whole[1..]) || (part[0] == whole[0] && Within(part[1..], whole[1..]))))
  }

  lemma {:induction false} PrefixWithin(whole: seq<Byte>, k: nat)
    requires k <= |whole|
    ensures Within(whole[..k], whole)
    decreases |whole|
  {
    if k > 0 {
      assert whole[..k][1..] == whole[1..][..k - 1];
      PrefixWithin(whole[1..], k - 1);
    }
  }

  lemma {:induction false} WithinBoth(a: seq<Byte>, b: seq<Byte>, first: seq<Byte>, second: seq<Byte>)
    requires Within(a, first) && Within(b, second)
    ensures Within(a + b, first + second)
    decreases |first|
  {
    if first == [] {
      assert a + b == b && first + second == second;
    } else {
      assert (first + second)[1..] == first[1..] + second;
      if Within(a, first[1..]) {
        WithinBoth(a, b, first[1..], second);
      } else {
        assert (a + b)[1..] == a[1..] + b;
        WithinBoth(a[1..], b, first[1..], second);
      }
    }
  }

  /** The outbox has grown by the bytes or, if a call failed, by some of them in order. */
  ghost predicate Extends(before: seq<Byte>, after: seq<Byte>, bytes: seq<Byte>, smooth: bool) {
    exists part :: Within(part, bytes) && after == before + part && (smooth ==> part == bytes)
  }

  lemma ExtendsTwice(a: seq<Byte>, b: seq<Byte>, c: seq<Byte>, first: seq<Byte>, second: seq<Byte>, s1: bool, s2: bool)
    requires Extends(a, b, first, s1) && Extends(b, c, second, s2)
    ensures Extends(a, c, first + second, s1 && s2)
  {
    var x :| Within(x, first) && b == a + x && (s1 ==> x == first);
    var y :| Within(y, second) && c == b + y && (s2 ==> y == second);
    hide Within;
    WithinBoth(x, y, first, second);
    assert c == a + (x + y);
  }

  /** Nothing more is written: right if nothing was to be written, or a call has failed. */
  lemma ExtendsNoMore(a: seq<Byte>, b: seq<Byte>, first: seq<Byte>, second: seq<Byte>, smooth: bool)
    requires Extends(a, b, first, smooth) && (smooth ==> second == [])
    ensures Extends(a, b, first + second, smooth)
  {
    assert b == b + [] && Within([], second);
    ExtendsTwice(a, b, b, first, second, smooth, smooth);
  }

  lemma ExtendsFully(a: seq<Byte>, b: seq<Byte>, bytes: seq<Byte>, smooth: bool)
    requires Extends(a, b, bytes, smooth)
    ensures smooth ==> b == a + bytes
  {
  }

  lemma ExtendsByNothing(a: seq<Byte>, bytes: seq<Byte>, smooth: bool)
    requires smooth ==> bytes == []
    ensures Extends(a, a, bytes, smooth)
  {
    assert a == a + [] && Within([], bytes);
  }

  /** k bytes of `size` asked for have come out of the stream. */
  ghost predicate Moved(k: nat, size: nat, before: seq<Byte>, after: seq<Byte>) {
    k < size && k <= |before| && after == before[k..]
  }

  ghost function Zeros(n: nat): seq<Byte> {
    seq(n, _ => 0)
  }

  class Connection {
    var inbox: seq<Byte>
    var outbox: seq<Byte>
    var interruptions: nat
    var failures: nat

    constructor (inbox: seq<Byte>, interruptions: nat, failures: nat)
      ensures this.inbox == inbox && outbox == []
    {
      this.inbox, outbox, this.interruptions, this.failures := inbox, [], interruptions, failures;
    }

    /** No call has failed other than by being interrupted. */
    twostate predicate Smooth()
      reads this
    {
      failures == old(failures)
    }

    /** A call ends with an error: it was interrupted, or it failed. */
    method Err() returns (interrupted: bool)
      requires interruptions > 0 || failures > 0
      modifies this`interruptions, this`failures
      ensures interrupted ==> interruptions < old(interruptions) && failures == old(failures)
      ensures !interrupted ==> failures < old(failures)
    {
      interrupted := *;
      if failures == 0 || (interrupted && interruptions > 0) {
        interrupted := true;
        interruptions := interruptions - 1;
      } else {
        interrupted := false;
        failures := failures - 1;
      }
    }

    /** read(2): some bytes, 0 at the end of the stream, or -1 and whether the call was interrupted. */
    method Read(buf: array<Byte>, at: nat, max: nat) returns (r: int, interrupted: bool)
      requires 0 < max && at + max <= buf.Length
      modifies this`inbox, this`interruptions, this`failures, buf
      ensures -1 <= r <= max && buf[..at] == old(buf[..at])
      ensures r == -1 ==> inbox == old(inbox) && buf[..] == old(buf[..])
      ensures r >= 0 ==> buf[at + r..] == old(buf[at + r..])
      ensures r == -1 && interrupted ==> interruptions < old(interruptions) && failures == old(failures)
      ensures r == -1 && !interrupted ==> failures < old(failures)
      ensures r >= 0 ==> r <= |old(inbox)| && buf[at..at + r] == old(inbox)[..r] && inbox == old(inbox)[r..]
      ensures r >= 0 ==> interruptions == old(interruptions) && failures == old(failures)
      ensures r == 0 <==> old(inbox) == [] && r != -1
    {
      interrupted := false;
      if interruptions > 0 || failures > 0 {
        if * {
          interrupted := Err();
          return -1, interrupted;
        }
      }
      if inbox == [] {
        return 0, false;
      }
      var k :| 1 <= k <= max && k <= |inbox|;
      forall i | 0 <= i < k {
        buf[at + i] := inbox[i];
      }
      inbox := inbox[k..];
      r := k;
    }

    /** write(2): some bytes are taken, or none, or -1 comes back and whether the call was interrupted. */
    method Write(bytes: seq<Byte>) returns (r: int, interrupted: bool)
      requires bytes != []
      modifies this`outbox, this`interruptions, this`failures
      ensures -1 <= r <= |bytes|
      ensures r == -1 ==> outbox == old(outbox)
      ensures r == -1 && interrupted ==> interruptions < old(interruptions) && failures == old(failures)
      ensures r == -1 && !interrupted ==> failures < old(failures)
      ensures r >= 0 ==> outbox == old(outbox) + bytes[..r] && interruptions == old(interruptions)
      ensures r == 0 ==> failures < old(failures)
      ensures r > 0 ==> failures == old(failures)
    {
      interrupted := false;
      if interruptions > 0 || failures > 0 {
        if * {
          interrupted := Err();
          return -1, interrupted;
        }
      }
      if failures > 0 {
        if * {
          failures := failures - 1;
          return 0, false;
        }
      }
      var k :| 1 <= k <= |bytes|;
      outbox := outbox + bytes[..k];
      r := k;
    }

    /**
      All `size` bytes or, at the end of the stream, 0; the size comes back as an int. A call that fails ends it with
      -1, after a part of the bytes.
    */
    method ReadN(buf: array<Byte>, size: nat) returns (r: int)
      requires size <= buf.Length
      modifies this`inbox, this`interruptions, this`failures, buf
      ensures failures <= old(failures)
      ensures Smooth() && size <= |old(inbox)| ==>
                r == ToInt32(size) && buf[..size] == old(inbox)[..size] && inbox == old(inbox)[size..]
      ensures Smooth() && size > |old(inbox)| ==> r == 0 && inbox == []
      ensures !Smooth() ==> r == -1 && exists k: nat ::
                  Moved(k, size, old(inbox), inbox) && buf[..k] == old(inbox)[..k] && buf[k..] == old(buf[k..])
    {
      if size == 0 {
        return 0;
      }
      var left := size;
      ghost var all := inbox;
      while left > 0
        invariant 0 <= left <= size && size - left <= |all| && Smooth()
        invariant buf[..size - left] == all[..size - left] && inbox == all[size - left..]
        invariant buf[size - left..] == old(buf[size - left..])
        decreases left, interruptions
      {
        var got, interrupted := Read(buf, size - left, left);
        if got == -1 {
          if interrupted {
            continue;
          }
          assert Moved(size - left, size, all, inbox);
          return -1;
        }
        if got == 0 {
          return 0;
        }
        assert all[..size - left] + all[size - left..][..got] == all[..size - left + got];
        assert buf[..size - left + got] == buf[..size - left] + buf[size - left..size - left + got];
        left := left - got;
      }
      r := ToInt32(size);
    }

    /** All bytes and 1; when a call fails a part of them and -1; when one takes nothing a part of them and 0. */
    method WriteN(bytes: seq<Byte>) returns (r: int)
      modifies this`outbox, this`interruptions, this`failures
      ensures failures <= old(failures) && -1 <= r <= 1 && (r == 1 <==> Smooth())
      ensures Smooth() ==> outbox == old(outbox) + bytes
      ensures !Smooth() ==> exists k: nat :: k < |bytes| && outbox == old(outbox) + bytes[..k]
      ensures Extends(old(outbox), outbox, bytes, Smooth())
    {
      var done := 0;
      while done < |bytes|
        invariant 0 <= done <= |bytes| && outbox == old(outbox) + bytes[..done] && Smooth()
        decreases |bytes| - done, interruptions
      {
        var put, interrupted := Write(bytes[done..]);
        if put == 0 || (put == -1 && !interrupted) {
          assert outbox == old(outbox) + bytes[..done];
          PrefixWithin(bytes, done);
          return put;
        }
        if put > 0 {
          assert bytes[..done + put] == bytes[..done] + bytes[done..][..put];
          done := done + put;
        }
      }
      PrefixWithin(bytes, done);
      r := 1;
    }

    /**
      Length and characters. A failure of the first write ends it; if the first write takes nothing at some point, the
      second is made all the same.
    */
    method WriteString(p: Path) returns (r: int)
      modifies this`outbox, this`interruptions, this`failures
      ensures failures <= old(failures) && -1 <= r <= 1
      ensures Smooth() ==> r == 1 && outbox == old(outbox) + Str(p)
      ensures r != 1 ==> !Smooth()
      ensures Extends(old(outbox), outbox, Str(p), Smooth())
    {
      hide Word, Extends;
      r := WriteN(Word(|p|, 8));
      ghost var o, f := outbox, failures;
      if r == -1 {
        ExtendsNoMore(old(outbox), outbox, Word(|p|, 8), p, false);
        return;
      }
      r := 1;
      if |p| > 0 {
        r := WriteN(p);
        ExtendsTwice(old(outbox), o, outbox, Word(|p|, 8), p, f == old(failures), failures == f);
      } else {
        ExtendsNoMore(old(outbox), outbox, Word(|p|, 8), p, Smooth());
      }
      assert old(outbox) + Word(|p|, 8) + p == old(outbox) + (Word(|p|, 8) + p);
    }

    /** Of a word cut short by a failed call the bytes that have arrived count, on top of zeros. */
    method ReadWord(width: nat) returns (r: int, n: nat)
      requires width == 4 || width == 8
      modifies this`inbox, this`interruptions, this`failures
      ensures failures <= old(failures)
      ensures !Smooth() ==> r == -1 && exists k: nat ::
                  Moved(k, width, old(inbox), inbox) && n == FromWord(old(inbox)[..k] + Zeros(width - k))
      ensures Smooth() && |old(inbox)| < width ==> r == 0 && inbox == []
      ensures Smooth() && |old(inbox)| >= width ==>
                r == width && n == FromWord(old(inbox)[..width]) && inbox == old(inbox)[width..]
    {
      var buf := new Byte[width](_ => 0);
      r := ReadN(buf, width);
      n := FromWord(buf[..width]);
      if !Smooth() {
        var k: nat :| Moved(k, width, old(inbox), inbox) && buf[..k] == old(inbox)[..k] && buf[k..] == Zeros(width - k);
        assert buf[..width] == buf[..k] + buf[k..];
      }
    }

    method ReadIntField() returns (field: Parsed<int>)
      modifies this`inbox, this`interruptions, this`failures
      ensures failures <= old(failures)
      ensures Smooth() ==> field == ReadInt(old(inbox))
      ensures !Smooth() ==> field == Bad(EINVAL, inbox)
      ensures !field.Wild? && field.rest == inbox
    {
      var r, n := ReadWord(4);
      field := if r == -1 then Bad(EINVAL, inbox) else if r == 0 then Bad(EBADMSG, inbox) else Good(ToInt32(n), inbox);
    }

    method ReadSizeField() returns (field: Parsed<nat>)
      modifies this`inbox, this`interruptions, this`failures
      ensures failures <= old(failures)
      ensures Smooth() ==> field == ReadSize(old(inbox))
      ensures !Smooth() ==> field == Bad(EINVAL, inbox)
      ensures !field.Wild? && field.rest == inbox
    {
      var r, n := ReadWord(8);
      field := if r == -1 then Bad(EINVAL, inbox) else if r == 0 then Bad(EBADMSG, inbox) else Good(n, inbox);
    }

    /** readn_string with the limit the program always passes; what it does beyond its buffer is not followed. */
    method ReadString() returns (field: Parsed<Path>)
      modifies this`inbox, this`interruptions, this`failures
      ensures failures <= old(failures)
      ensures Smooth() ==> field == ReadPath(old(inbox))
      ensures !Smooth() ==> field == Bad(EINVAL, inbox)
      ensures !field.Wild? ==> field.rest == inbox
    {
      var size := ReadSizeField();
      if size.Bad? {
        return Bad(size.error, size.rest);
      }
      if size.value == 0 {
        return Bad(EBADMSG, inbox);
      }
      if size.value > MAX_PATH || |inbox| < size.value {
        return Wild;
      }
      var buf := new Byte[MAX_PATH + 1];
      var r := ReadN(buf, size.value);
      field := if r == -1 then Bad(EINVAL, inbox) else Good(buf[..size.value], inbox);
    }

    /** The size of some data, then the data. */
    method ReadBlockField() returns (field: Parsed<seq<Byte>>)
      modifies this`inbox, this`interruptions, this`failures
      ensures failures <= old(failures)
      ensures Smooth() ==> field == ReadBlock(old(inbox))
      ensures !Smooth() ==> field == Bad(EINVAL, inbox)
      ensures !field.Wild? && field.rest == inbox
    {
      var size := ReadSizeField();
      if size.Bad? {
        return Bad(size.error, size.rest);
      }
      if size.value == 0 {
        return Good([], inbox);
      }
      var buf := new Byte[size.value];
      var r := ReadN(buf, size.value);
      field := if r == -1 then Bad(EINVAL, inbox)
        else if r == 0 then Bad(EBADMSG, inbox)
        else Good(buf[..size.value], inbox);
    }

    /** The select loop's read of one byte; an interrupted or failed read counts as a disconnection. */
    method TakeLeadingByte() returns (alive: bool)
      modifies this`inbox, this`interruptions, this`failures
      ensures failures <= old(failures)
      ensures alive ==> Smooth() && old(inbox) != [] && inbox == old(inbox)[1..]
      ensures !alive ==>
                inbox == old(inbox) && (old(inbox) == [] || interruptions < old(interruptions) || !Smooth())
    {
      var buf := new Byte[1];
      var r, _ := Read(buf, 0, 1);
      alive := r > 0;
    }
  }

  // The client's side of a call

  /** The fields of a write or an append; the call gives up when a write fails. */
  method SendContent(conn: Connection, p: Path, sendBack: bool, data: seq<Byte>) returns (r: int)
    modifies conn`outbox, conn`interruptions, conn`failures
    ensures conn.failures <= old(conn.failures) && (r == -1 ==> !conn.Smooth())
    ensures Extends(old(conn.outbox), conn.outbox, Str(Clip(p)) + (Flag(sendBack) + Block(data)), conn.Smooth())
  {
    hide Extends, Word, Str, Flag, Clip;
    ghost var o, f, head := conn.outbox, conn.failures, Str(Clip(p));
    assert head + Flag(sendBack) + Block(data) == head + (Flag(sendBack) + Block(data));
    r := conn.WriteString(Clip(p));
    if r == -1 {
      ExtendsNoMore(o, conn.outbox, head, Flag(sendBack) + Block(data), false);
      return;
    }
    ghost var o1, f1 := conn.outbox, conn.failures;
    r := conn.WriteN(Flag(sendBack));
    ExtendsTwice(o, o1, conn.outbox, head, Flag(sendBack), f1 == f, conn.failures == f1);
    if r == -1 {
      ExtendsNoMore(o, conn.outbox, head + Flag(sendBack), Block(data), false);
      return;
    }
    ghost var o2, f2 := conn.outbox, conn.failures;
    r := SendBlock(conn, data);
    ExtendsTwice(o, o2, conn.outbox, head + Flag(sendBack), Block(data), f2 == f, conn.failures == f2);
  }

  lemma Regrouped(a: seq<Byte>, b: seq<Byte>, c: seq<Byte>, d: seq<Byte>)
    ensures a + (b + c) + d == a + (b + (c + d))
  {
  }

  /** Size and data, as the client writes them. */
  method SendBlock(conn: Connection, data: seq<Byte>) returns (r: int)
    modifies conn`outbox, conn`interruptions, conn`failures
    ensures conn.failures <= old(conn.failures) && (r == -1 ==> !conn.Smooth())
    ensures Extends(old(conn.outbox), conn.outbox, Block(data), conn.Smooth())
  {
    hide Extends, Word;
    r := conn.WriteN(Word(|data|, 8));
    ghost var o1, f1 := conn.outbox, conn.failures;
    if r == -1 {
      ExtendsNoMore(old(conn.outbox), conn.outbox, Word(|data|, 8), data, false);
      return;
    }
    if |data| > 0 {
      r := conn.WriteN(data);
      ExtendsTwice(old(conn.outbox), o1, conn.outbox, Word(|data|, 8), data, f1 == old(conn.failures),
                   conn.failures == f1);
    } else {
      ExtendsNoMore(old(conn.outbox), conn.outbox, Word(|data|, 8), data, conn.Smooth());
    }
  }

  method SendFields(conn: Connection, req: Request) returns (r: int)
    modifies conn`outbox, conn`interruptions, conn`failures
    ensures conn.failures <= old(conn.failures) && (r == -1 ==> !conn.Smooth())
    ensures Extends(old(conn.outbox), conn.outbox, Fields(req), conn.Smooth())
  {
    hide Extends, Word, Str, Block, Flag, Clip;
    match req {
      case Open(p, flags) =>
        r := conn.WriteN(Word(flags, 4));
        ghost var o1, f1 := conn.outbox, conn.failures;
        if r == -1 {
          ExtendsNoMore(old(conn.outbox), conn.outbox, Word(flags, 4), Str(Clip(p)), false);
          return;
        }
        r := conn.WriteString(Clip(p));
        ExtendsTwice(old(conn.outbox), o1, conn.outbox, Word(flags, 4), Str(Clip(p)), f1 == old(conn.failures),
                     conn.failures == f1);
      case ReadN(n) => r := conn.WriteN(Word(n, 4));
      case Write(p, sendBack, data) => r := SendContent(conn, p, sendBack, data);
      case Append(p, sendBack, data) => r := SendContent(conn, p, sendBack, data);
      case _ => r := conn.WriteString(Clip(PathOf(req)));
    }
  }

  /** Each call of the client library begins like this: a byte, the operation, its fields; -1 when a write fails. */
  method SendRequest(conn: Connection, req: Request) returns (r: int)
    modifies conn`outbox, conn`interruptions, conn`failures
    ensures conn.failures <= old(conn.failures) && (r == -1 ==> !conn.Smooth())
    ensures conn.Smooth() ==> conn.outbox == old(conn.outbox) + EncodeRequest(req)
    ensures Extends(old(conn.outbox), conn.outbox, EncodeRequest(req), conn.Smooth())
  {
    hide Extends, Fields, Word, OpOf;
    ghost var o, f := conn.outbox, conn.failures;
    var op := Word(OpOf(req), 4);
    assert [0] + (op + Fields(req)) == [0] + op + Fields(req);
    r := conn.WriteN([0]);
    ghost var o1, f1 := conn.outbox, conn.failures;
    if r == -1 {
      ExtendsNoMore(o, conn.outbox, [0], op + Fields(req), false);
      return;
    }
    r := conn.WriteN(op);
    ExtendsTwice(o, o1, conn.outbox, [0], op, f1 == f, conn.failures == f1);
    ghost var o2, f2 := conn.outbox, conn.failures;
    if r == -1 {
      ExtendsNoMore(o, conn.outbox, [0] + op, Fields(req), false);
      return;
    }
    r := SendFields(conn, req);
    ExtendsTwice(o, o2, conn.outbox, [0] + op, Fields(req), f2 == f, conn.failures == f2);
    ExtendsFully(o, conn.outbox, EncodeRequest(req), conn.Smooth());
  }

  // The server's side

  method ReceivePath(conn: Connection, make: Path -> Request) returns (msg: Incoming)
    modifies conn`inbox, conn`interruptions, conn`failures
    ensures conn.failures <= old(conn.failures)
    ensures !conn.Smooth() ==> msg == Malformed(EINVAL, conn.inbox)
    ensures conn.Smooth() ==> msg == WithPath(ReadPath(old(conn.inbox)), make)
    ensures msg.Ask? || msg.Malformed? || msg.Unreliable?
    ensures msg.Ask? ==> msg.rest == conn.inbox
    ensures msg.Malformed? ==> msg.rest == conn.inbox
  {
    hide ReadPath;
    var path := conn.ReadString();
    match path
    case Good(p, _) => msg := Ask(make(p), conn.inbox);
    case Bad(error, _) => msg := Malformed(error, conn.inbox);
    case Wild => msg := Unreliable;
  }

  method ReceiveContent(conn: Connection, make: (Path, bool, seq<Byte>) -> Request) returns (msg: Incoming)
    modifies conn`inbox, conn`interruptions, conn`failures
    ensures conn.failures <= old(conn.failures)
    ensures !conn.Smooth() ==> msg == Malformed(EINVAL, conn.inbox)
    ensures conn.Smooth() ==> msg == WithContent(ReadPath(old(conn.inbox)), make)
    ensures msg.Ask? || msg.Malformed? || msg.Unreliable?
    ensures msg.Ask? ==> msg.rest == conn.inbox
    ensures msg.Malformed? ==> msg.rest == conn.inbox
  {
    hide ReadPath, ReadInt, ReadBlock;
    var path := conn.ReadString();
    if path.Wild? {
      return Unreliable;
    }
    if path.Bad? {
      return Malformed(path.error, conn.inbox);
    }
    var flag := conn.ReadIntField();
    if flag.Bad? {
      return Malformed(flag.error, conn.inbox);
    }
    var data := conn.ReadBlockField();
    if data.Bad? {
      return Malformed(data.error, conn.inbox);
    }
    msg := Ask(make(path.value, flag.value != 0, data.value), conn.inbox);
  }

  method ReceiveFields(conn: Connection, op: nat) returns (msg: Incoming)
    modifies conn`inbox, conn`interruptions, conn`failures
    ensures conn.failures <= old(conn.failures)
    ensures !conn.Smooth() ==> msg == Malformed(EINVAL, conn.inbox)
    ensures conn.Smooth() ==> msg == DecodeFields(op, old(conn.inbox))
    ensures msg.Ask? || msg.Malformed? || msg.Unserved? ==> msg.rest == conn.inbox
  {
    hide ReadPath, ReadInt, WithPath, WithContent;
    if op == 1 {
      var flags := conn.ReadIntField();
      if flags.Bad? {
        return Malformed(flags.error, conn.inbox);
      }
      msg := ReceivePath(conn, p => Open(p, flags.value));
    } else if op == 5 {
      var n := conn.ReadIntField();
      msg := if n.Bad? then Malformed(n.error, conn.inbox) else Ask(ReadN(n.value), conn.inbox);
    } else if op == 2 {
      msg := ReceivePath(conn, p => Lock(p));
    } else if op == 3 {
      msg := ReceivePath(conn, p => Unlock(p));
    } else if op == 4 {
      msg := ReceivePath(conn, p => Read(p));
    } else if op == 6 {
      msg := ReceiveContent(conn, (p, sendBack, data) => Write(p, sendBack, data));
    } else if op == 7 {
      msg := ReceiveContent(conn, (p, sendBack, data) => Append(p, sendBack, data));
    } else if op == 8 {
      msg := ReceivePath(conn, p => Close(p));
    } else if op == 9 {
      msg := ReceivePath(conn, p => Remove(p));
    } else {
      msg := Unserved(op, conn.inbox);
    }
  }

  /** What a worker goes on with once it takes op for the operation. */
  ghost predicate GoesOnWith(op: nat, bytes: seq<Byte>, msg: Incoming, rest: seq<Byte>) {
    if op < 1 || op > OP_OK then msg == Unknown(op)
    else msg == DecodeFields(op, bytes) || msg == Malformed(EINVAL, rest)
  }

  /** The operation word was cut short by a failed call after k bytes, and what has arrived of it was taken. */
  ghost predicate CutShort(k: nat, bytes: seq<Byte>, msg: Incoming, rest: seq<Byte>) {
    k < 4 && k <= |bytes| && GoesOnWith(FromWord(bytes[..k] + Zeros(4 - k)), bytes[k..], msg, rest)
  }

  /**
    A worker's reading of one request, after the select loop took the leading byte. If a call fails, it answers with
    an error, unless that was the reading of the operation word: then it goes on with what has arrived.
  */
  method ReceiveRequest(conn: Connection) returns (msg: Incoming)
    modifies conn`inbox, conn`interruptions, conn`failures
    ensures conn.failures <= old(conn.failures)
    ensures conn.Smooth() ==> msg == Decode(old(conn.inbox))
    ensures !conn.Smooth() ==>
              msg == Malformed(EINVAL, conn.inbox) || exists k: nat :: CutShort(k, old(conn.inbox), msg, conn.inbox)
    ensures msg.Ask? || msg.Malformed? || msg.Unserved? ==> msg.rest == conn.inbox
  {
    hide DecodeFields;
    var r, op := conn.ReadWord(4);
    if r == 0 {
      return Closed;
    }
    ghost var left, failed := conn.inbox, !conn.Smooth();
    if op < 1 || op > OP_OK {
      msg := Unknown(op);
    } else {
      msg := ReceiveFields(conn, op);
    }
    if failed {
      var k: nat :| Moved(k, 4, old(conn.inbox), left) && op == FromWord(old(conn.inbox)[..k] + Zeros(4 - k));
      assert CutShort(k, old(conn.inbox), msg, conn.inbox);
    }
  }

  // The server's answers. A row of writes is given up at the result `stop`: at -1 when stored files are sent, at 0,
  // which only a write that takes nothing gives, in all other answers.

  method SendFile(conn: Connection, p: Path, data: seq<Byte>, stop: int) returns (r: int)
    requires stop == -1 || stop == 0
    modifies conn`outbox, conn`interruptions, conn`failures
    ensures conn.failures <= old(conn.failures) && (r == stop ==> !conn.Smooth())
    ensures Extends(old(conn.outbox), conn.outbox, Str(Clip(p)) + Block(data), conn.Smooth())
  {
    hide Extends, Str, Word, Clip;
    ghost var o, f := conn.outbox, conn.failures;
    assert Str(Clip(p)) + (Word(|data|, 8) + data) == Str(Clip(p)) + Word(|data|, 8) + data;
    r := conn.WriteString(Clip(p));
    ghost var o1, f1 := conn.outbox, conn.failures;
    if r == stop {
      ExtendsNoMore(o, conn.outbox, Str(Clip(p)), Block(data), false);
      return;
    }
    r := conn.WriteN(Word(|data|, 8));
    ghost var o2, f2 := conn.outbox, conn.failures;
    ExtendsTwice(o, o1, conn.outbox, Str(Clip(p)), Word(|data|, 8), f1 == f, f2 == f1);
    if r == stop || |data| == 0 {
      ExtendsNoMore(o, conn.outbox, Str(Clip(p)) + Word(|data|, 8), data, f2 == f);
      return;
    }
    r := conn.WriteN(data);
    ExtendsTwice(o, o2, conn.outbox, Str(Clip(p)) + Word(|data|, 8), data, f2 == f, conn.failures == f2);
  }

  method SendFiles(conn: Connection, files: seq<(Path, seq<Byte>)>, stop: int)
    requires stop == -1 || stop == 0
    modifies conn`outbox, conn`interruptions, conn`failures
    ensures conn.failures <= old(conn.failures)
    ensures Extends(old(conn.outbox), conn.outbox, EncodeFiles(files), conn.Smooth())
  {
    hide Extends, EncodeFiles, Str, Block, Clip;
    ghost var o, f, sent := conn.outbox, conn.failures, [];
    var i := 0;
    assert files[i..] == files && [] + EncodeFiles(files) == EncodeFiles(files);
    ExtendsByNothing(o, [], true);
    while i < |files|
      invariant 0 <= i <= |files| && conn.failures <= f
      invariant Extends(o, conn.outbox, sent, conn.Smooth()) && sent + EncodeFiles(files[i..]) == EncodeFiles(files)
    {
      var (p, data) := files[i];
      ghost var o1, f1, rest := conn.outbox, conn.failures, EncodeFiles(files[i + 1..]);
      EncodeFilesFrom(files, i);
      Regrouped(sent, Str(Clip(p)), Block(data), rest);
      var r := SendFile(conn, p, data, stop);
      ExtendsTwice(o, o1, conn.outbox, sent, Str(Clip(p)) + Block(data), f1 == f, conn.failures == f1);
      sent := sent + (Str(Clip(p)) + Block(data));
      if r == stop {
        ExtendsNoMore(o, conn.outbox, sent, rest, false);
        return;
      }
      i := i + 1;
    }
    NoFiles(files[i..]);
    assert sent + [] == sent;
  }

  lemma NoFiles(files: seq<(Path, seq<Byte>)>)
    requires files == []
    ensures EncodeFiles(files) == []
  {
  }

  lemma EncodeFilesFrom(files: seq<(Path, seq<Byte>)>, i: nat)
    requires i < |files|
    ensures EncodeFiles(files[i..]) == Str(Clip(files[i].0)) + (Block(files[i].1) + EncodeFiles(files[i + 1..]))
  {
  }

  /** An operation code and, if that was not to no avail, a word. */
  method SendWords(conn: Connection, op: int, n: int, width: nat, stop: int) returns (r: int)
    requires stop == -1 || stop == 0
    modifies conn`outbox, conn`interruptions, conn`failures
    ensures conn.failures <= old(conn.failures) && (r == stop ==> !conn.Smooth())
    ensures Extends(old(conn.outbox), conn.outbox, Word(op, 4) + Word(n, width), conn.Smooth())
  {
    hide Extends, Word;
    r := conn.WriteN(Word(op, 4));
    ghost var o1, f1 := conn.outbox, conn.failures;
    if r == stop {
      ExtendsNoMore(old(conn.outbox), conn.outbox, Word(op, 4), Word(n, width), false);
      return;
    }
    r := conn.WriteN(Word(n, width));
    ExtendsTwice(old(conn.outbox), o1, conn.outbox, Word(op, 4), Word(n, width), f1 == old(conn.failures),
                 conn.failures == f1);
  }

  method SendData(conn: Connection, data: seq<Byte>)
    modifies conn`outbox, conn`interruptions, conn`failures
    ensures conn.failures <= old(conn.failures)
    ensures Extends(old(conn.outbox), conn.outbox, EncodeReply(Data(data)), conn.Smooth())
  {
    hide Extends, Word;
    assert Word(OP_OK, 4) + (Word(|data|, 8) + data) == Word(OP_OK, 4) + Word(|data|, 8) + data;
    var r := SendWords(conn, OP_OK, |data|, 8, 0);
    ghost var o1, f1 := conn.outbox, conn.failures;
    if r == 0 || |data| == 0 {
      ExtendsNoMore(old(conn.outbox), conn.outbox, Word(OP_OK, 4) + Word(|data|, 8), data, conn.Smooth());
      return;
    }
    var _ := conn.WriteN(data);
    ExtendsTwice(old(conn.outbox), o1, conn.outbox, Word(OP_OK, 4) + Word(|data|, 8), data, f1 == old(conn.failures),
                 conn.failures == f1);
  }

  method SendSeveral(conn: Connection, files: seq<(Path, seq<Byte>)>, stop: int)
    requires stop == -1 || stop == 0
    modifies conn`outbox, conn`interruptions, conn`failures
    ensures conn.failures <= old(conn.failures)
    ensures Extends(old(conn.outbox), conn.outbox, EncodeReply(Several(files)), conn.Smooth())
  {
    hide Extends, Word, EncodeFiles;
    ghost var head, tail := Word(OP_OK, 4) + Word(|files|, 8), EncodeFiles(files);
    assert Word(OP_OK, 4) + (Word(|files|, 8) + tail) == head + tail;
    var r := SendWords(conn, OP_OK, |files|, 8, stop);
    ghost var o1, f1 := conn.outbox, conn.failures;
    if r == stop {
      ExtendsNoMore(old(conn.outbox), conn.outbox, head, tail, false);
      return;
    }
    SendFiles(conn, files, stop);
    ExtendsTwice(old(conn.outbox), o1, conn.outbox, head, tail, f1 == old(conn.failures), conn.failures == f1);
  }

  /** `replaced` tells the files an admission drove out from those of a read of several. */
  method SendReply(conn: Connection, reply: Reply, replaced: bool)
    modifies conn`outbox, conn`interruptions, conn`failures
    ensures conn.failures <= old(conn.failures)
    ensures conn.Smooth() ==> conn.outbox == old(conn.outbox) + EncodeReply(reply)
    ensures Extends(old(conn.outbox), conn.outbox, EncodeReply(reply), conn.Smooth())
  {
    hide Extends, Word, Block, EncodeFiles;
    match reply {
      case Ok => var _ := conn.WriteN(Word(OP_OK, 4));
      case Failed(error) => var _ := SendWords(conn, OP_ERROR, error, 4, 0);
      case Data(data) => SendData(conn, data);
      case Several(files) => SendSeveral(conn, files, if replaced then 0 else -1);
    }
    ExtendsFully(old(conn.outbox), conn.outbox, EncodeReply(reply), conn.Smooth());
  }

  // The client's reading of the reply

  method ReceiveContentOfReply(conn: Connection) returns (field: Parsed<seq<Byte>>)
    modifies conn`inbox, conn`interruptions, conn`failures
    ensures conn.failures <= old(conn.failures)
    ensures conn.Smooth() ==> field == Wire.ReadContent(old(conn.inbox))
    ensures !conn.Smooth() ==> field == Bad(EINVAL, conn.inbox)
    ensures !field.Wild? ==> field.rest == conn.inbox
  {
    var size := conn.ReadSizeField();
    if size.Bad? {
      return if size.error == EINVAL then Bad(EINVAL, conn.inbox) else Wild;
    }
    if size.value == 0 {
      return Good([], conn.inbox);
    }
    if |conn.inbox| < size.value {
      return Wild;
    }
    var buf := new Byte[size.value];
    var r := conn.ReadN(buf, size.value);
    field := if r == -1 then Bad(EINVAL, conn.inbox) else Good(buf[..size.value], conn.inbox);
  }

  /** Of a path that is not there at all no call fails. */
  lemma PathErrors(bytes: seq<Byte>)
    ensures ReadPath(bytes).Bad? ==> ReadPath(bytes).error == EBADMSG
  {
  }

  method ReceiveFile(conn: Connection) returns (field: Parsed<(Path, seq<Byte>)>)
    modifies conn`inbox, conn`interruptions, conn`failures
    ensures conn.failures <= old(conn.failures)
    ensures conn.Smooth() ==> field == ReadFile(old(conn.inbox))
    ensures !conn.Smooth() ==> field == Bad(EINVAL, conn.inbox)
    ensures !field.Wild? ==> field.rest == conn.inbox
  {
    PathErrors(conn.inbox);
    hide ReadPath, Wire.ReadContent;
    var path := conn.ReadString();
    if path.Bad? && path.error == EINVAL {
      return Bad(EINVAL, conn.inbox);
    }
    if !path.Good? {
      return Wild;
    }
    var data := ReceiveContentOfReply(conn);
    match data
    case Good(bytes, _) => field := Good((path.value, bytes), conn.inbox);
    case Bad(error, _) => field := Bad(error, conn.inbox);
    case Wild => field := Wild;
  }

  /** The loop over the announced number of files. */
  method ReceiveFiles(conn: Connection, n: nat) returns (field: Parsed<seq<(Path, seq<Byte>)>>)
    modifies conn`inbox, conn`interruptions, conn`failures
    ensures conn.failures <= old(conn.failures)
    ensures conn.Smooth() ==> field == ReadFiles(n, old(conn.inbox))
    ensures !conn.Smooth() ==> field == Bad(EINVAL, conn.inbox)
    ensures !field.Wild? ==> field.rest == conn.inbox
  {
    hide ReadFile, ReadFiles, Prepend;
    var files := [];
    var i := 0;
    ghost var all := ReadFiles(n, conn.inbox);
    PrependNothing(all);
    while i < n
      invariant 0 <= i <= n
      invariant conn.Smooth() && all == Prepend(files, ReadFiles(n - i, conn.inbox))
    {
      NextFile(all, files, n - i, conn.inbox);
      var file := ReceiveFile(conn);
      if file.Wild? {
        return Wild;
      }
      if file.Bad? {
        return Bad(file.error, conn.inbox);
      }
      files := files + [file.value];
      i := i + 1;
    }
    NoMoreFiles(files, conn.inbox);
    field := Good(files, conn.inbox);
  }

  /** The loop of an append: its buffer, once freed, is not reset, and freeing it again ends what can be said. */
  method ReceiveReplaced(conn: Connection, n: nat) returns (field: Parsed<seq<(Path, seq<Byte>)>>)
    modifies conn`inbox, conn`interruptions, conn`failures
    ensures conn.failures <= old(conn.failures)
    ensures conn.Smooth() ==> field == ReadReplaced(n, false, old(conn.inbox))
    ensures !conn.Smooth() ==> field == Bad(EINVAL, conn.inbox)
    ensures !field.Wild? ==> field.rest == conn.inbox
  {
    hide ReadFile, ReadReplaced, Prepend;
    var files, freed := [], false;
    var i := 0;
    ghost var all := ReadReplaced(n, false, conn.inbox);
    PrependNothing(all);
    while i < n
      invariant 0 <= i <= n
      invariant conn.Smooth() && all == Prepend(files, ReadReplaced(n - i, freed, conn.inbox))
    {
      NextReplaced(all, files, n - i, freed, conn.inbox);
      var file := ReceiveFile(conn);
      if file.Wild? {
        return Wild;
      }
      if file.Bad? {
        return Bad(file.error, conn.inbox);
      }
      if file.value.1 != [] {
        freed := true;
      } else if freed {
        return Wild;
      }
      files := files + [file.value];
      i := i + 1;
    }
    NoMoreReplaced(files, freed, conn.inbox);
    field := Good(files, conn.inbox);
  }

  ghost function Prepend<T>(head: seq<T>, tail: Parsed<seq<T>>): Parsed<seq<T>> {
    match tail
    case Good(items, rest) => Good(head + items, rest)
    case Bad(error, rest) => Bad(error, rest)
    case Wild => Wild
  }

  lemma PrependNothing<T>(tail: Parsed<seq<T>>)
    ensures Prepend([], tail) == tail
  {
    if tail.Good? {
      assert [] + tail.value == tail.value;
    }
  }

  lemma PrependTwice<T>(head: seq<T>, next: T, tail: Parsed<seq<T>>)
    ensures Prepend(head, Prepend([next], tail)) == Prepend(head + [next], tail)
  {
    if tail.Good? {
      assert head + ([next] + tail.value) == head + [next] + tail.value;
    }
  }

  lemma NextFile(all: Parsed<seq<(Path, seq<Byte>)>>, files: seq<(Path, seq<Byte>)>, n: nat, bytes: seq<Byte>)
    requires n > 0 && all == Prepend(files, ReadFiles(n, bytes))
    ensures match ReadFile(bytes)
            case Good(file, rest) => all == Prepend(files + [file], ReadFiles(n - 1, rest))
            case Bad(error, rest) => all == Bad(error, rest)
            case Wild => all == Wild
  {
    var file := ReadFile(bytes);
    hide ReadFile;
    if file.Good? {
      PrependTwice(files, file.value, ReadFiles(n - 1, file.rest));
    }
  }

  lemma NextReplaced(all: Parsed<seq<(Path, seq<Byte>)>>, files: seq<(Path, seq<Byte>)>, n: nat, freed: bool,
        bytes: seq<Byte>)
    requires n > 0 && all == Prepend(files, ReadReplaced(n, freed, bytes))
    ensures match ReadFile(bytes)
            case Good(file, rest) =>
              all == if freed && file.1 == [] then Wild
                     else Prepend(files + [file], ReadReplaced(n - 1, freed || file.1 != [], rest))
            case Bad(error, rest) => all == Bad(error, rest)
            case Wild => all == Wild
  {
    var file := ReadFile(bytes);
    hide ReadFile;
    if file.Good? {
      PrependTwice(files, file.value, ReadReplaced(n - 1, freed || file.value.1 != [], file.rest));
    }
  }

  lemma NoMoreReplaced(files: seq<(Path, seq<Byte>)>, freed: bool, bytes: seq<Byte>)
    ensures Prepend(files, ReadReplaced(0, freed, bytes)) == Good(files, bytes)
  {
    assert files + [] == files;
  }

  lemma NoMoreFiles(files: seq<(Path, seq<Byte>)>, bytes: seq<Byte>)
    ensures Prepend(files, ReadFiles(0, bytes)) == Good(files, bytes)
  {
    assert files + [] == files;
  }

  /** Each call of the client library ends like this; `kind` is what the call waits for. */
  method ReceiveReply(conn: Connection, kind: Kind) returns (answer: Answer)
    modifies conn`inbox, conn`interruptions, conn`failures
    ensures conn.failures <= old(conn.failures)
    ensures conn.Smooth() ==> answer == DecodeReply(kind, old(conn.inbox))
    ensures !conn.Smooth() ==> answer == Aborted
    ensures answer.Received? ==> answer.rest == conn.inbox
  {
    WordErrors(conn.inbox);
    hide ReadInt, DecodeSuccess;
    var op := conn.ReadIntField();
    if op.Bad? {
      return if op.error == EINVAL then Aborted else Misread;
    }
    if op.value != OP_ERROR {
      answer := ReceiveSuccess(conn, kind);
      return;
    }
    WordErrors(conn.inbox);
    var error := conn.ReadIntField();
    if error.Bad? {
      return if error.error == EINVAL then Aborted else Misread;
    }
    answer := Received(Failed(error.value), conn.inbox);
  }

  method ReceiveSuccess(conn: Connection, kind: Kind) returns (answer: Answer)
    modifies conn`inbox, conn`interruptions, conn`failures
    ensures conn.failures <= old(conn.failures)
    ensures conn.Smooth() ==> answer == DecodeSuccess(kind, old(conn.inbox))
    ensures !conn.Smooth() ==> answer == Aborted
    ensures answer.Received? ==> answer.rest == conn.inbox
  {
    WordErrors(conn.inbox);
    hide ReadSize, Wire.ReadContent, ReadFiles, ReadReplaced;
    if kind.Nothing? {
      return Received(Ok, conn.inbox);
    }
    if kind.Content? {
      var data := ReceiveContentOfReply(conn);
      return if data.Good? then Received(Data(data.value), conn.inbox) else if data.Bad? then Aborted else Misread;
    }
    var count := conn.ReadSizeField();
    if count.Bad? {
      return if count.error == EINVAL then Aborted else Misread;
    }
    if count.value >= TWO31 {
      return Misread;
    }
    var files;
    if kind.Replaced? {
      files := ReceiveReplaced(conn, count.value);
    } else {
      files := ReceiveFiles(conn, count.value);
    }
    answer := if files.Good? then Received(Several(files.value), conn.inbox)
      else if files.Bad? then Aborted else Misread;
  }

  /** Of an integer that is not there no call fails. */
  lemma WordErrors(bytes: seq<Byte>)
    ensures ReadInt(bytes).Bad? ==> ReadInt(bytes).error == EBADMSG
    ensures ReadSize(bytes).Bad? ==> ReadSize(bytes).error == EBADMSG
  {
  }
}
