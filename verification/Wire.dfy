/**
  The format of requests and replies on a connection: what the client writes (client/src/file_storage_api.c),
  what the server reads (server/src/server.c, server/src/handle_client.c), and back. Integers are in the byte
  order of the machine both run on, least significant byte first. A path is the characters before its
  terminator.
*/
module Wire {
  import opened Machine
  import opened Handlers

  const MAX_PATH := 108
  const EINVAL := 22
  const EBADMSG := 74
  const OP_ERROR := 11
  const OP_OK := 12

  // Integers

  function Word(n: int, width: nat): (bytes: seq<Byte>)
    ensures |bytes| == width
    decreases width
  {
    if width == 0 then [] else [n % 0x100] + Word(n / 0x100, width - 1)
  }

  function FromWord(bytes: seq<Byte>): nat {
    if bytes == [] then 0 else bytes[0] + 0x100 * FromWord(bytes[1..])
  }

  function Pow256(width: nat): (p: nat)
    ensures p > 0
  {
    if width == 0 then 1 else 0x100 * Pow256(width - 1)
  }

  /** Writing out a word and reading it in again gives back what fits in its width. */
  lemma {:induction false} WordRoundTrip(n: nat, width: nat)
    requires n < Pow256(width)
    ensures FromWord(Word(n, width)) == n
    decreases width
  {
    if width > 0 {
      WordRoundTrip(n / 0x100, width - 1);
    }
  }

  lemma WordCarries(n: int, high: int, width: nat)
    requires width > 0
    ensures Word(n + 0x100 * high, width) == [n % 0x100] + Word(n / 0x100 + high, width - 1)
  {
  }

  /** Two's complement: a negative int has the bytes of the number 2^32 above it. */
  lemma NegativeWord(n: int)
    ensures Word(n + TWO32, 4) == Word(n, 4)
  {
    var n1 := n / 0x100;
    var n2 := n1 / 0x100;
    var n3 := n2 / 0x100;
    WordCarries(n, 0x100_0000, 4);
    WordCarries(n1, 0x1_0000, 3);
    WordCarries(n2, 0x100, 2);
    WordCarries(n3, 1, 1);
  }

  lemma Widths()
    ensures Pow256(4) == TWO32 && Pow256(8) == TWO64
  {
  }

  // Requests as the client writes them

  function OpOf(req: Request): (op: int)
    ensures 1 <= op <= 9
  {
    match req
    case Open(_, _) => 1
    case Lock(_) => 2
    case Unlock(_) => 3
    case Read(_) => 4
    case ReadN(_) => 5
    case Write(_, _, _) => 6
    case Append(_, _, _) => 7
    case Close(_) => 8
    case Remove(_) => 9
  }

  /** The client measures a path no further than the limit. */
  function Clip(p: Path): Path {
    if |p| <= MAX_PATH then p else p[..MAX_PATH]
  }

  function Str(p: Path): seq<Byte> {
    Word(|p|, 8) + p
  }

  function Block(data: seq<Byte>): seq<Byte> {
    Word(|data|, 8) + data
  }

  function Flag(b: bool): seq<Byte> {
    Word(if b then 1 else 0, 4)
  }

  function Fields(req: Request): seq<Byte> {
    match req
    case Open(p, flags) => Word(flags, 4) + Str(Clip(p))
    case ReadN(n) => Word(n, 4)
    case Write(p, sendBack, data) => Str(Clip(p)) + (Flag(sendBack) + Block(data))
    case Append(p, sendBack, data) => Str(Clip(p)) + (Flag(sendBack) + Block(data))
    case Lock(p) => Str(Clip(p))
    case Unlock(p) => Str(Clip(p))
    case Read(p) => Str(Clip(p))
    case Close(p) => Str(Clip(p))
    case Remove(p) => Str(Clip(p))
  }

  /** The leading byte only lets the select loop tell a request from a disconnection. */
  function EncodeRequest(req: Request): seq<Byte> {
    [0] + (Word(OpOf(req), 4) + Fields(req))
  }

  // Requests as the server reads them. `bytes` is all that will arrive before the connection ends.

  /** Bad: the handler answers with the error. Wild: it goes on with a buffer it has not filled, or overfilled. */
  datatype Parsed<T> = Good(value: T, rest: seq<Byte>) | Bad(error: int, rest: seq<Byte>) | Wild

  function ReadInt(bytes: seq<Byte>): Parsed<int> {
    if |bytes| < 4 then Bad(EBADMSG, []) else Good(ToInt32(FromWord(bytes[..4])), bytes[4..])
  }

  function ReadSize(bytes: seq<Byte>): Parsed<nat> {
    if |bytes| < 8 then Bad(EBADMSG, []) else Good(FromWord(bytes[..8]), bytes[8..])
  }

  /** A length above the limit is read in full, past the end of the buffer; one cut short is not noticed. */
  function ReadPath(bytes: seq<Byte>): Parsed<Path> {
    match ReadSize(bytes)
    case Good(len, rest) =>
      if len == 0 then Bad(EBADMSG, rest)
      else if len > MAX_PATH || |rest| < len then Wild
      else Good(rest[..len], rest[len..])
    case Bad(error, rest) => Bad(error, rest)
    case Wild => Wild
  }

  /** The number of bytes read comes back as an int, in which 0 and -1 mean failure. */
  function ReadBlock(bytes: seq<Byte>): Parsed<seq<Byte>> {
    match ReadSize(bytes)
    case Good(len, rest) =>
      if len == 0 then Good([], rest)
      else if |rest| < len then Bad(EBADMSG, [])
      else if ToInt32(len) == -1 then Bad(EINVAL, rest[len..])
      else if ToInt32(len) == 0 then Bad(EBADMSG, rest[len..])
      else Good(rest[..len], rest[len..])
    case Bad(error, rest) => Bad(error, rest)
    case Wild => Wild
  }

  /**
    What a worker makes of the bytes after the leading one. Closed and Unknown end the connection; Unserved
    is an operation in range that no handler serves.
  */
  datatype Incoming =
    | Closed
    | Unknown(op: nat)
    | Unserved(op: nat, rest: seq<Byte>)
    | Malformed(error: int, rest: seq<Byte>)
    | Unreliable
    | Ask(req: Request, rest: seq<Byte>)

  function WithPath(parsed: Parsed<Path>, make: Path -> Request): Incoming {
    match parsed
    case Good(p, rest) => Ask(make(p), rest)
    case Bad(error, rest) => Malformed(error, rest)
    case Wild => Unreliable
  }

  function WithContent(parsed: Parsed<Path>, make: (Path, bool, seq<Byte>) -> Request): Incoming {
    match parsed
    case Bad(error, rest) => Malformed(error, rest)
    case Wild => Unreliable
    case Good(p, rest) =>
      match ReadInt(rest)
      case Bad(error, rest') => Malformed(error, rest')
      case Wild => Unreliable
      case Good(flag, rest') =>
        match ReadBlock(rest')
        case Bad(error, rest'') => Malformed(error, rest'')
        case Wild => Unreliable
        case Good(data, rest'') => Ask(make(p, flag != 0, data), rest'')
  }

  function DecodeOpen(bytes: seq<Byte>): Incoming {
    match ReadInt(bytes)
    case Bad(error, rest) => Malformed(error, rest)
    case Wild => Unreliable
    case Good(flags, rest) => WithPath(ReadPath(rest), p => Open(p, flags))
  }

  function DecodeReadN(bytes: seq<Byte>): Incoming {
    match ReadInt(bytes)
    case Bad(error, rest) => Malformed(error, rest)
    case Wild => Unreliable
    case Good(n, rest) => Ask(ReadN(n), rest)
  }

  function DecodeFields(op: nat, bytes: seq<Byte>): Incoming {
    match op
    case 1 => DecodeOpen(bytes)
    case 2 => WithPath(ReadPath(bytes), p => Lock(p))
    case 3 => WithPath(ReadPath(bytes), p => Unlock(p))
    case 4 => WithPath(ReadPath(bytes), p => Read(p))
    case 5 => DecodeReadN(bytes)
    case 6 => WithContent(ReadPath(bytes), (p, sendBack, data) => Write(p, sendBack, data))
    case 7 => WithContent(ReadPath(bytes), (p, sendBack, data) => Append(p, sendBack, data))
    case 8 => WithPath(ReadPath(bytes), p => Close(p))
    case 9 => WithPath(ReadPath(bytes), p => Remove(p))
    case _ => Unserved(op, bytes)
  }

  function Decode(bytes: seq<Byte>): Incoming {
    if |bytes| < 4 then Closed
    else
      var op := FromWord(bytes[..4]);
      if op < 1 || op > OP_OK then Unknown(op) else DecodeFields(op, bytes[4..])
  }

  // Round trip of requests

  lemma IntWord(n: int)
    requires IsInt(n)
    ensures ToInt32(FromWord(Word(n, 4))) == n
  {
    hide Word, FromWord, Pow256;
    Widths();
    if n < 0 {
      NegativeWord(n);
      WordRoundTrip(n + TWO32, 4);
    } else {
      WordRoundTrip(n, 4);
    }
  }

  lemma IntArrives(n: int, rest: seq<Byte>)
    requires IsInt(n)
    ensures ReadInt(Word(n, 4) + rest) == Good(n, rest)
  {
    hide Word, FromWord, ToInt32;
    IntWord(n);
    SplitAt(Word(n, 4), rest);
  }

  lemma SplitAt(a: seq<Byte>, b: seq<Byte>)
    ensures (a + b)[..|a|] == a && (a + b)[|a|..] == b
  {
  }

  lemma SizeArrives(n: nat, rest: seq<Byte>)
    requires n < TWO64
    ensures ReadSize(Word(n, 8) + rest) == Good(n, rest)
  {
    WordRoundTrip(n, 8);
    Widths();
    SplitAt(Word(n, 8), rest);
    hide Word, FromWord;
  }

  lemma PathArrives(p: Path, rest: seq<Byte>)
    requires |p| <= MAX_PATH
    ensures ReadPath(Str(p) + rest) == if p == [] then Bad(EBADMSG, rest) else Good(p, rest)
  {
    SizeArrives(|p|, p + rest);
    assert Str(p) + rest == Word(|p|, 8) + (p + rest);
    assert (p + rest)[..|p|] == p && (p + rest)[|p|..] == rest;
  }

  /** The lengths whose 32 low bits do not read as success. */
  predicate ReadsAsFailure(len: nat) {
    len > 0 && (ToInt32(len) == 0 || ToInt32(len) == -1)
  }

  lemma BlockArrives(data: seq<Byte>, rest: seq<Byte>)
    requires |data| < TWO64
    ensures ReadBlock(Block(data) + rest)
            == if ReadsAsFailure(|data|) then Bad(if ToInt32(|data|) == 0 then EBADMSG else EINVAL, rest)
               else Good(data, rest)
  {
    SizeArrives(|data|, data + rest);
    assert Block(data) + rest == Word(|data|, 8) + (data + rest);
    assert (data + rest)[..|data|] == data && (data + rest)[|data|..] == rest;
  }

  function PathOf(req: Request): Path {
    if req.ReadN? then [0] else req.path
  }

  function DataOf(req: Request): seq<Byte> {
    if req.Write? || req.Append? then req.data else []
  }

  /** What C types allow a client to ask for. */
  predicate Typed(req: Request) {
    |DataOf(req)| < TWO64 && (req.Open? ==> IsInt(req.flags)) && (req.ReadN? ==> IsInt(req.n))
  }

  lemma ContentArrives(p: Path, sendBack: bool, data: seq<Byte>, make: (Path, bool, seq<Byte>) -> Request,
        rest: seq<Byte>)
    requires |data| < TWO64 && |p| <= MAX_PATH
    ensures var got := WithContent(ReadPath(Str(p) + (Flag(sendBack) + Block(data)) + rest), make);
            if p == [] then got == Malformed(EBADMSG, Flag(sendBack) + (Block(data) + rest))
            else if ReadsAsFailure(|data|) then got == Malformed(if ToInt32(|data|) == 0 then EBADMSG else EINVAL, rest)
            else got == Ask(make(p, sendBack, data), rest)
  {
    hide Word, FromWord, ReadInt, ReadPath, ReadBlock, Str, Block;
    var tail := Flag(sendBack) + Block(data) + rest;
    assert Str(p) + (Flag(sendBack) + Block(data)) + rest == Str(p) + tail;
    PathArrives(p, tail);
    assert tail == Flag(sendBack) + (Block(data) + rest);
    IntArrives(if sendBack then 1 else 0, Block(data) + rest);
    BlockArrives(data, rest);
  }

  /** What is left unread of a request whose path is empty. */
  function Unread(req: Request): seq<Byte> {
    if PathOf(req) == [] && (req.Write? || req.Append?) then Flag(req.sendBack) + Block(req.data) else []
  }

  /** The request is answered with an error, and what is left of it is not taken off the stream. */
  predicate IsMalformed(got: Incoming, req: Request, rest: seq<Byte>) {
    && got.Malformed? && got.rest == Unread(req) + rest
    && got.error == if PathOf(req) == [] || ToInt32(|DataOf(req)|) == 0 then EBADMSG else EINVAL
  }

  /** The fields of a request, read by the handler of its operation. */
  lemma FieldsArrive(req: Request, rest: seq<Byte>)
    requires Typed(req) && |PathOf(req)| <= MAX_PATH
    ensures var got := DecodeFields(OpOf(req), Fields(req) + rest);
            if PathOf(req) == [] || ReadsAsFailure(|DataOf(req)|) then IsMalformed(got, req, rest)
            else got == Ask(req, rest)
  {
    hide Word, ReadPath, ReadBlock, ReadInt, WithContent, Str, Block, Flag;
    match req {
      case Open(p, flags) =>
        assert Word(flags, 4) + Str(p) + rest == Word(flags, 4) + (Str(p) + rest);
        IntArrives(flags, Str(p) + rest);
        PathArrives(p, rest);
      case ReadN(n) =>
        IntArrives(n, rest);
      case Write(p, sendBack, data) =>
        ContentArrives(p, sendBack, data, (p, sendBack, data) => Write(p, sendBack, data), rest);
        assert Flag(sendBack) + (Block(data) + rest) == Flag(sendBack) + Block(data) + rest;
      case Append(p, sendBack, data) =>
        ContentArrives(p, sendBack, data, (p, sendBack, data) => Append(p, sendBack, data), rest);
        assert Flag(sendBack) + (Block(data) + rest) == Flag(sendBack) + Block(data) + rest;
      case _ => PathArrives(PathOf(req), rest);
    }
  }

  function Clipped(req: Request): Request {
    if req.ReadN? then req else req.(path := Clip(req.path))
  }

  lemma ClippedEncodesTheSame(req: Request)
    ensures EncodeRequest(Clipped(req)) == EncodeRequest(req)
  {
  }

  lemma AfterTheLeadingByte(req: Request)
    ensures EncodeRequest(req)[1..] == Word(OpOf(req), 4) + Fields(req)
  {
  }

  lemma OpArrives(req: Request, rest: seq<Byte>)
    ensures Decode(EncodeRequest(req)[1..] + rest) == DecodeFields(OpOf(req), Fields(req) + rest)
  {
    hide Word, FromWord, Pow256, Fields, OpOf, DecodeFields, EncodeRequest;
    var op, fields := Word(OpOf(req), 4), Fields(req);
    Widths();
    WordRoundTrip(OpOf(req), 4);
    AfterTheLeadingByte(req);
    assert op + fields + rest == op + (fields + rest);
    SplitAt(op, fields + rest);
  }

  /**
    Every request arrives as it was sent, with the rest of the stream untouched, exactly if its path has 1 to
    108 characters and the length of its data does not read as a failure; a longer path arrives cut to 108.
  */
  lemma RequestRoundTrip(req: Request, rest: seq<Byte>)
    requires Typed(req)
    ensures Decode(EncodeRequest(req)[1..] + rest) == Ask(req, rest)
            <==> 1 <= |PathOf(req)| <= MAX_PATH && !ReadsAsFailure(|DataOf(req)|)
    ensures PathOf(req) != [] && !ReadsAsFailure(|DataOf(req)|)
            ==> Decode(EncodeRequest(req)[1..] + rest) == Ask(Clipped(req), rest)
    ensures PathOf(req) == [] || ReadsAsFailure(|DataOf(req)|)
            ==> IsMalformed(Decode(EncodeRequest(req)[1..] + rest), req, rest)
  {
    hide Decode, EncodeRequest, Fields, DecodeFields, ReadsAsFailure;
    var req' := Clipped(req);
    assert DataOf(req') == DataOf(req) && PathOf(req') == Clip(PathOf(req));
    assert req' == req <==> |PathOf(req)| <= MAX_PATH;
    ClippedEncodesTheSame(req);
    OpArrives(req', rest);
    FieldsArrive(req', rest);
    hide PathOf, DataOf, Clipped;
  }

  // Replies as the server writes them

  function EncodeFiles(files: seq<(Path, seq<Byte>)>): seq<Byte> {
    if files == [] then [] else Str(Clip(files[0].0)) + (Block(files[0].1) + EncodeFiles(files[1..]))
  }

  function EncodeReply(reply: Reply): seq<Byte> {
    match reply
    case Ok => Word(OP_OK, 4)
    case Failed(error) => Word(OP_ERROR, 4) + Word(error, 4)
    case Data(data) => Word(OP_OK, 4) + Block(data)
    case Several(files) => Word(OP_OK, 4) + (Word(|files|, 8) + EncodeFiles(files))
  }

  // The bytes themselves

  lemma SmallWord(n: nat)
    requires n < 0x100
    ensures Word(n, 4) == [n, 0, 0, 0] && Word(n, 8) == [n, 0, 0, 0, 0, 0, 0, 0]
  {
    assert n / 0x100 == 0 && n % 0x100 == n;
    SmallZeros();
  }

  lemma SmallZeros()
    ensures Word(0, 3) == [0, 0, 0] && Word(0, 7) == [0, 0, 0, 0, 0, 0, 0]
  {
    assert Word(0, 1) == [0] && Word(0, 2) == [0, 0] && Word(0, 4) == [0, 0, 0, 0];
    assert Word(0, 5) == [0] + Word(0, 4) && Word(0, 6) == [0] + Word(0, 5);
  }

  /** The number of an operation in the header. */
  function NumberOf(req: Request): nat {
    match req
    case Open(_, _) => 1
    case Lock(_) => 2
    case Unlock(_) => 3
    case Read(_) => 4
    case ReadN(_) => 5
    case Write(_, _, _) => 6
    case Append(_, _, _) => 7
    case Close(_) => 8
    case Remove(_) => 9
  }

  /** A request begins with a byte to look at and the number of its operation, least significant byte first. */
  lemma RequestsBegin(req: Request)
    ensures EncodeRequest(req)[..5] == [0, NumberOf(req), 0, 0, 0]
  {
    hide Word, Fields;
    SmallWord(OpOf(req));
    assert EncodeRequest(req) == [0] + Word(OpOf(req), 4) + Fields(req);
    assert ([0] + Word(OpOf(req), 4) + Fields(req))[..5] == [0] + Word(OpOf(req), 4);
  }

  /** 11 announces an error, 12 a success. */
  lemma RepliesBegin(reply: Reply)
    ensures EncodeReply(reply)[..4] == [if reply.Failed? then 11 else 12, 0, 0, 0]
  {
    hide Word, EncodeFiles, Block;
    SmallWord(11);
    SmallWord(12);
    var head := Word(if reply.Failed? then 11 else 12, 4);
    assert EncodeReply(reply)[..4] == head;
  }

  /** A lock request for the file "a", and the failure that says that there is no such file. */
  lemma SampleMessages()
    ensures EncodeRequest(Lock([97])) == [0] + [2, 0, 0, 0] + [1, 0, 0, 0, 0, 0, 0, 0] + [97]
    ensures EncodeReply(Failed(ENOENT)) == [11, 0, 0, 0] + [2, 0, 0, 0]
  {
    hide Word;
    SmallWord(1);
    SmallWord(2);
    SmallWord(11);
    var a, b, c, d: seq<Byte> := [0], Word(2, 4), Word(1, 8), [97];
    assert a + (b + (c + d)) == a + b + c + d;
  }

  // Replies as the client reads them

  /** What a client call goes on to read after a success. */
  datatype Kind = Nothing | Content | Files | Replaced

  function Expects(req: Request): Kind {
    match req
    case Read(_) => Content
    case ReadN(_) => Files
    case Write(_, sendBack, _) => if sendBack then Files else Nothing
    case Append(_, sendBack, _) => if sendBack then Replaced else Nothing
    case _ => Nothing
  }

  /** Misread: the call goes on with memory the connection did not fill, or frees twice. Aborted: it gives up. */
  datatype Answer = Received(reply: Reply, rest: seq<Byte>) | Aborted | Misread

  /** The client takes only -1 for a failure, not 0. */
  function ReadContent(bytes: seq<Byte>): Parsed<seq<Byte>> {
    match ReadSize(bytes)
    case Good(len, rest) =>
      if len == 0 then Good([], rest)
      else if |rest| < len then Wild
      else if ToInt32(len) == -1 then Bad(EINVAL, rest[len..])
      else Good(rest[..len], rest[len..])
    case _ => Wild
  }

  function ReadFile(bytes: seq<Byte>): Parsed<(Path, seq<Byte>)> {
    match ReadPath(bytes)
    case Good(p, rest) =>
      (match ReadContent(rest)
       case Good(data, rest') => Good((p, data), rest')
       case Bad(error, rest') => Bad(error, rest')
       case Wild => Wild)
    case _ => Wild
  }

  function ReadFiles(n: nat, bytes: seq<Byte>): Parsed<seq<(Path, seq<Byte>)>> {
    if n == 0 then Good([], bytes)
    else
      match ReadFile(bytes)
      case Bad(error, rest) => Bad(error, rest)
      case Wild => Wild
      case Good(file, rest) =>
        match ReadFiles(n - 1, rest)
        case Bad(error, rest') => Bad(error, rest')
        case Wild => Wild
        case Good(files, rest') => Good([file] + files, rest')
  }

  /**
    The loop of an append, unlike the other two, does not reset its buffer for an empty file: once a buffer has been
    filled and freed, an empty file makes it free that buffer again.
  */
  function ReadReplaced(n: nat, freed: bool, bytes: seq<Byte>): Parsed<seq<(Path, seq<Byte>)>> {
    if n == 0 then Good([], bytes)
    else
      match ReadFile(bytes)
      case Bad(error, rest) => Bad(error, rest)
      case Wild => Wild
      case Good(file, rest) =>
        if freed && file.1 == [] then Wild
        else
          match ReadReplaced(n - 1, freed || file.1 != [], rest)
          case Bad(error, rest') => Bad(error, rest')
          case Wild => Wild
          case Good(files, rest') => Good([file] + files, rest')
  }

  function DecodeFiles(kind: Kind, n: nat, bytes: seq<Byte>): Parsed<seq<(Path, seq<Byte>)>> {
    if kind.Replaced? then ReadReplaced(n, false, bytes) else ReadFiles(n, bytes)
  }

  function DecodeSuccess(kind: Kind, bytes: seq<Byte>): Answer {
    match kind
    case Nothing => Received(Ok, bytes)
    case Content =>
      (match ReadContent(bytes)
       case Good(data, rest) => Received(Data(data), rest)
       case Bad(_, _) => Aborted
       case Wild => Misread)
    case _ =>
      match ReadSize(bytes)
      case Good(n, rest) =>
        if n >= TWO31 then Misread
        else
          (match DecodeFiles(kind, n, rest)
           case Good(files, rest') => Received(Several(files), rest')
           case Bad(_, _) => Aborted
           case Wild => Misread)
      case _ => Misread
  }

  function DecodeReply(kind: Kind, bytes: seq<Byte>): Answer {
    match ReadInt(bytes)
    case Good(op, rest) =>
      if op == OP_ERROR then
        (match ReadInt(rest)
         case Good(error, rest') => Received(Failed(error), rest')
         case _ => Misread)
      else DecodeSuccess(kind, rest)
    case _ => Misread
  }

  // Round trip of replies

  predicate FileFits(file: (Path, seq<Byte>)) {
    1 <= |file.0| <= MAX_PATH && |file.1| < TWO31
  }

  /** A failure, or the kind of success the client waits for. */
  predicate ReplyFits(kind: Kind, reply: Reply) {
    match reply
    case Failed(error) => IsInt(error)
    case Ok => kind.Nothing?
    case Data(data) => kind.Content? && |data| < TWO31
    case Several(files) => (kind.Files? || kind.Replaced?) && |files| < TWO31 && forall f :: f in files ==> FileFits(f)
  }

  lemma ContentOfReplyArrives(data: seq<Byte>, rest: seq<Byte>)
    requires |data| < TWO31
    ensures ReadContent(Block(data) + rest) == Good(data, rest)
  {
    hide Word, ReadSize;
    SizeArrives(|data|, data + rest);
    assert Block(data) + rest == Word(|data|, 8) + (data + rest);
    SplitAt(data, rest);
  }

  lemma FileArrives(p: Path, data: seq<Byte>, rest: seq<Byte>)
    requires FileFits((p, data))
    ensures ReadFile(Str(p) + (Block(data) + rest)) == Good((p, data), rest)
  {
    PathArrives(p, Block(data) + rest);
    ContentOfReplyArrives(data, rest);
    hide Str, Block, ReadPath, ReadContent;
  }

  lemma FirstFileEncoded(files: seq<(Path, seq<Byte>)>, rest: seq<Byte>)
    requires files != [] && FileFits(files[0])
    ensures EncodeFiles(files) + rest
            == Str(files[0].0) + (Block(files[0].1) + (EncodeFiles(files[1..]) + rest))
  {
    hide Str, Block;
    var a, b, c := Str(files[0].0), Block(files[0].1), EncodeFiles(files[1..]);
    assert EncodeFiles(files) == a + (b + c);
    assert a + (b + c) + rest == a + (b + (c + rest));
  }

  lemma FirstFileArrives(files: seq<(Path, seq<Byte>)>, rest: seq<Byte>)
    requires files != [] && FileFits(files[0])
    ensures ReadFile(EncodeFiles(files) + rest) == Good(files[0], EncodeFiles(files[1..]) + rest)
  {
    hide Str, Block, ReadFile, EncodeFiles, FileFits;
    FirstFileEncoded(files, rest);
    FileArrives(files[0].0, files[0].1, EncodeFiles(files[1..]) + rest);
  }

  lemma {:induction false} FilesArrive(files: seq<(Path, seq<Byte>)>, rest: seq<Byte>)
    requires forall f :: f in files ==> FileFits(f)
    ensures ReadFiles(|files|, EncodeFiles(files) + rest) == Good(files, rest)
  {
    if files == [] {
      assert EncodeFiles(files) + rest == rest;
    } else {
      hide ReadFile, EncodeFiles, FileFits;
      FirstFileArrives(files, rest);
      FilesArrive(files[1..], rest);
      assert [files[0]] + files[1..] == files;
    }
  }

  /** An empty file comes somewhere after one that is not. */
  ghost predicate EmptyAfterFull(files: seq<(Path, seq<Byte>)>) {
    exists i, j :: 0 <= i < j < |files| && files[i].1 != [] && files[j].1 == []
  }

  ghost predicate HasEmpty(files: seq<(Path, seq<Byte>)>) {
    exists j :: 0 <= j < |files| && files[j].1 == []
  }

  lemma EmptyAfterFirst(files: seq<(Path, seq<Byte>)>)
    requires files != []
    ensures EmptyAfterFull(files) <==> EmptyAfterFull(files[1..]) || (files[0].1 != [] && HasEmpty(files[1..]))
    ensures HasEmpty(files) <==> files[0].1 == [] || HasEmpty(files[1..])
  {
    var rest := files[1..];
    assert forall j :: 0 < j < |files| ==> files[j] == rest[j - 1];
    if i, j :| 0 <= i < j < |files| && files[i].1 != [] && files[j].1 == [] {
      assert rest[j - 1].1 == [];
      assert i > 0 ==> rest[i - 1].1 != [];
    }
    if i, j :| 0 <= i < j < |rest| && rest[i].1 != [] && rest[j].1 == [] {
      assert files[i + 1].1 != [] && files[j + 1].1 == [];
    }
    if j :| 0 <= j < |rest| && rest[j].1 == [] {
      assert files[j + 1].1 == [];
    }
  }

  /** Going through the files in order, an empty one comes while a freed buffer is still held. */
  predicate FreesAgain(files: seq<(Path, seq<Byte>)>, freed: bool) {
    files != [] && ((freed && files[0].1 == []) || FreesAgain(files[1..], freed || files[0].1 != []))
  }

  lemma {:induction false} FreesAgainExactly(files: seq<(Path, seq<Byte>)>, freed: bool)
    ensures FreesAgain(files, freed) <==> EmptyAfterFull(files) || (freed && HasEmpty(files))
  {
    if files == [] {
    } else {
      hide EmptyAfterFull, HasEmpty;
      EmptyAfterFirst(files);
      FreesAgainExactly(files[1..], freed || files[0].1 != []);
    }
  }

  lemma OneMoreReplaced(n: nat, freed: bool, bytes: seq<Byte>, file: (Path, seq<Byte>), rest: seq<Byte>)
    requires ReadFile(bytes) == Good(file, rest)
    ensures ReadReplaced(n + 1, freed, bytes)
            == if freed && file.1 == [] then Wild
               else match ReadReplaced(n, freed || file.1 != [], rest)
                    case Bad(error, rest') => Bad(error, rest')
                    case Wild => Wild
                    case Good(files, rest') => Good([file] + files, rest')
  {
    hide ReadFile;
  }

  lemma {:induction false} ReplacedFilesArrive(files: seq<(Path, seq<Byte>)>, freed: bool, rest: seq<Byte>)
    requires forall f :: f in files ==> FileFits(f)
    ensures ReadReplaced(|files|, freed, EncodeFiles(files) + rest)
            == if FreesAgain(files, freed) then Wild else Good(files, rest)
  {
    hide FileFits;
    if files == [] {
      assert EncodeFiles(files) + rest == rest;
    } else {
      hide ReadFile, ReadReplaced, EncodeFiles;
      FirstFileArrives(files, rest);
      var file, later := files[0], files[1..];
      OneMoreReplaced(|later|, freed, EncodeFiles(files) + rest, file, EncodeFiles(later) + rest);
      ReplacedFilesArrive(later, freed || file.1 != [], rest);
      assert [file] + later == files;
    }
  }

  /** Whoever reads this kind of answer gets through this one. */
  ghost predicate Bearable(kind: Kind, reply: Reply) {
    kind.Replaced? && reply.Several? ==> !EmptyAfterFull(reply.files)
  }

  /**
    A reply of the kind the client waits for arrives as it was sent, with the rest of the stream untouched, exactly
    unless it answers an append with an empty file after one that is not; that one is misread.
  */
  lemma ReplyRoundTrip(kind: Kind, reply: Reply, rest: seq<Byte>)
    requires ReplyFits(kind, reply)
    ensures DecodeReply(kind, EncodeReply(reply) + rest) == Received(reply, rest) <==> Bearable(kind, reply)
    ensures !Bearable(kind, reply) ==> DecodeReply(kind, EncodeReply(reply) + rest) == Misread
  {
    hide Word, FromWord, ReadInt, ReadSize, ReadContent, ReadFiles, ReadReplaced, Block, EncodeFiles, EmptyAfterFull;
    match reply {
      case Ok => IntArrives(OP_OK, rest);
      case Failed(error) =>
        assert EncodeReply(reply) + rest == Word(OP_ERROR, 4) + (Word(error, 4) + rest);
        IntArrives(OP_ERROR, Word(error, 4) + rest);
        IntArrives(error, rest);
      case Data(data) =>
        assert EncodeReply(reply) + rest == Word(OP_OK, 4) + (Block(data) + rest);
        IntArrives(OP_OK, Block(data) + rest);
        ContentOfReplyArrives(data, rest);
      case Several(files) =>
        var tail := EncodeFiles(files) + rest;
        assert EncodeReply(reply) + rest == Word(OP_OK, 4) + (Word(|files|, 8) + tail);
        IntArrives(OP_OK, Word(|files|, 8) + tail);
        SizeArrives(|files|, tail);
        if kind.Replaced? {
          ReplacedFilesArrive(files, false, rest);
          FreesAgainExactly(files, false);
        } else {
          FilesArrive(files, rest);
        }
    }
  }
}
