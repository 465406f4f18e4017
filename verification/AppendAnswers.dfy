/**
  Answers to an append that bring replaced files back: exactly when the client's loop gets through them, and a run
  that ends in an answer it does not get through.
*/
module AppendAnswers {
  import opened Machine
  import opened Files
  import opened Policies
  import opened Stores
  import opened Handlers
  import opened StoreInvariants
  import opened Protocol
  import opened WriteRuns
  import opened Promises
  import opened Sessions
  import opened LoneClient
  import opened Wire
  import opened Conversations

  /** Among the files to be replaced, in the order they go, an empty one comes after one that is not. */
  ghost predicate EmptyVictimAfterFull(files: FileMap, victims: seq<Path>)
    requires forall v :: v in victims ==> v in files
  {
    exists i, j :: 0 <= i < j < |victims| && files[victims[i]].size > 0 && files[victims[j]].size == 0
  }

  lemma PayloadMirrorsSizes(files: FileMap, victims: seq<Path>)
    requires forall v :: v in victims ==> v in files
    ensures EmptyAfterFull(Payload(files, victims)) <==> EmptyVictimAfterFull(files, victims)
  {
    var payload := Payload(files, victims);
    assert forall i :: 0 <= i < |victims| ==> (payload[i].1 == [] <==> files[victims[i]].size == 0);
  }

  /** The answer of an accepted append that wants the replaced files back. */
  lemma AnswerOfAppend(cfg: Config, st: Store, c: int, p: Path, data: seq<Byte>, now: Time, order: seq<Path>)
    requires forall q :: q in order ==> q in st.files
    requires Accepted(HandleAppend(cfg, st, c, p, true, data, now, order))
    ensures var victims := ToReplace(cfg, st, p, data, order);
            && (forall v :: v in victims ==> v in st.files)
            && HandleAppend(cfg, st, c, p, true, data, now, order).notes[0]
               == Note(c, Several(Payload(st.files, victims)))
  {
    hide PutContent, MakeRoom, Payload, EvictionNotes;
    if p in st.files {
      var f := Touch(AppendContent(cfg.recordTotal, st.files[p], data).(writable := false), now);
      PutContentOutcome(cfg, st, c, p, f, |data|, true, order);
    }
  }

  /** The sender misreads the answer to its append exactly if an empty file is replaced after one that is not. */
  lemma AppendIsMisreadExactly(cfg: Config, st: Store, c: int, p: Path, data: seq<Byte>, now: Time, order: seq<Path>,
        rest: seq<Byte>)
    requires HandlerPre(cfg, st, c, order) && NamesFit(st)
    requires Accepted(HandleAppend(cfg, st, c, p, true, data, now, order))
    ensures forall v :: v in ToReplace(cfg, st, p, data, order) ==> v in st.files
    ensures var note := HandleAppend(cfg, st, c, p, true, data, now, order).notes[0];
            && note.client == c
            && DecodeReply(Expects(Append(p, true, data)), EncodeReply(note.reply) + rest)
               == if EmptyVictimAfterFull(st.files, ToReplace(cfg, st, p, data, order)) then Misread
                  else Received(note.reply, rest)
  {
    hide HandlerPre, NamesFit, HandleAppend, EncodeReply, DecodeReply, ToReplace, EmptyAfterFull, EmptyVictimAfterFull,
      Payload, Coherent;
    PreMeans(cfg, st, c, order);
    AnswerOfAppend(cfg, st, c, p, data, now, order);
    PayloadMirrorsSizes(st.files, ToReplace(cfg, st, p, data, order));
    EveryAnswerIsUnderstood(cfg, st, c, Append(p, true, data), now, order, 0, rest);
  }

  // A run

  const A: Path := [97]
  const B: Path := [98]
  const C: Path := [99]
  const D: Path := [100]

  /** A file of its only opener a, who owns it, with nobody waiting. */
  ghost predicate Item(st: Store, p: Path, a: int, sec: int, data: seq<Byte>, writable: bool) {
    p in st.files
    && var f := st.files[p];
       && f.path == p && f.data == data && f.size == |data| && f.created == Time(sec, 0) && f.owner == a
       && f.openers == Chains.Chain([a], true) && f.waiters == Chains.EmptyChain() && f.writable == writable
  }

  /** A run of client a alone that has led to st, with every request answered. */
  ghost predicate Reached(cfg: Config, states: seq<State>, events: seq<Event>, st: Store, a: int) {
    |states| > 0 && Run(cfg, states, events) && states[|states| - 1] == Alone(st, a, Idle, []) && a != NOBODY
  }

  lemma ReachedIsSound(cfg: Config, states: seq<State>, events: seq<Event>, st: Store, a: int)
    returns (order: seq<Path>)
    requires ConfigOk(cfg) && Reached(cfg, states, events, st, a)
    ensures Inv(cfg, Alone(st, a, Idle, []))
    ensures PolicyOrder(cfg.policy, st.files, order) && HandlerPre(cfg, st, a, order)
    ensures Coherent(st) && Accounts(cfg, st)
  {
    hide Steps, Segment, Inv, HandlerPre, PolicyOrder;
    RunKeepsInv(cfg, states, events, |states| - 1);
    PolicyOrderExists(cfg.policy, st.files);
    order :| PolicyOrder(cfg.policy, st.files, order);
    SenderIsFree(cfg, Alone(st, a, Idle, []), a, order);
    PreMeans(cfg, st, a, order);
  }

  lemma Serves(cfg: Config, states: seq<State>, events: seq<Event>, st: Store, a: int, req: Request, now: Time,
        order: seq<Path>, st': Store, reply: Reply)
    returns (states': seq<State>, events': seq<Event>)
    requires Reached(cfg, states, events, st, a) && Coherent(st) && PolicyOrder(cfg.policy, st.files, order)
    requires Handle(cfg, st, a, req, now, order) == Done(st', [Note(a, reply)])
    ensures Reached(cfg, states', events', st', a)
    ensures events' == events + [Send(a, req), HandleIt(a, now, order), Deliver(0)]
  {
    hide Handle, PolicyOrder, Segment, Alone, Initial;
    states', events' := Exchange(cfg, states, events, st, a, req, now, order, st', reply);
  }

  /** The other files are what they were. */
  ghost predicate OnlyNew(st: Store, st': Store, p: Path) {
    forall q :: q in st.files && q != p ==> q in st'.files && st'.files[q] == st.files[q]
  }

  lemma ItemStays(st: Store, st': Store, p: Path, q: Path, a: int, sec: int, data: seq<Byte>, writable: bool)
    requires OnlyNew(st, st', p) && q != p && Item(st, q, a, sec, data, writable)
    ensures Item(st', q, a, sec, data, writable)
  {
  }

  lemma CreatesFile(cfg: Config, states: seq<State>, events: seq<Event>, st: Store, a: int, p: Path, sec: int)
    returns (states': seq<State>, events': seq<Event>, st': Store)
    requires ConfigOk(cfg) && Reached(cfg, states, events, st, a) && p !in st.files && st.count < cfg.maxFiles
    ensures Reached(cfg, states', events', st', a) && OnlyNew(st, st', p) && Item(st', p, a, sec, [], true)
    ensures st'.files.Keys == st.files.Keys + {p} && st'.used == st.used && st'.count == st.count + 1
  {
    hide HandleOpen, Reached, HandlerPre, PolicyOrder, Accounts, Coherent, Inv;
    var order := ReachedIsSound(cfg, states, events, st, a);
    CreatedStore(cfg, st, a, p, Time(sec, 0));
    st' := HandleOpen(cfg, st, a, p, 3, Time(sec, 0)).store;
    states', events' := Serves(cfg, states, events, st, a, Open(p, 3), Time(sec, 0), order, st', Ok);
  }

  lemma FillsFile(cfg: Config, states: seq<State>, events: seq<Event>, st: Store, a: int, p: Path, sec: int,
        data: seq<Byte>)
    returns (states': seq<State>, events': seq<Event>, st': Store)
    requires ConfigOk(cfg) && Reached(cfg, states, events, st, a) && Item(st, p, a, sec, [], true)
    requires 0 < |data| < cfg.maxMemory && st.used + |data| <= cfg.maxMemory
    ensures Reached(cfg, states', events', st', a) && OnlyNew(st, st', p) && Item(st', p, a, sec, data, false)
    ensures st'.files.Keys == st.files.Keys && st'.used == st.used + |data| && st'.count == st.count
  {
    hide Reached, HandlerPre, PolicyOrder, Accounts, Inv, PutContent, NotifyMemory, SizeMissing, MakeRoom;
    var order := ReachedIsSound(cfg, states, events, st, a);
    var now := Time(sec, 0);
    var f := Touch(ReplaceContent(st.files[p], data).(writable := false), now);
    PreMeans(cfg, st, a, order);
    RoomIsThere(cfg, st, p, |data|, order);
    PutContentOutcome(cfg, st, a, p, f, |data|, false, order);
    NotifyAddsExactly(cfg, st, |data|);
    st' := SetFile(NotifyMemory(st, |data|), p, f);
    states', events' := Serves(cfg, states, events, st, a, Write(p, false, data), now, order, st', Ok);
  }

  lemma RoomIsThere(cfg: Config, st: Store, p: Path, size: nat, order: seq<Path>)
    requires ConfigOk(cfg) && Accounts(cfg, st) && size < cfg.maxMemory && st.used + size <= cfg.maxMemory
    requires forall q :: q in order ==> q in st.files
    ensures MakeRoom(cfg, st, p, size, order) == Made(NotifyMemory(st, size), [])
  {
    hide Accounts, SizeMissing, NotifyMemory;
    ArithmeticIsExact(cfg, st, size);
  }

  const TWO: seq<Byte> := [1, 1]
  const THREE: seq<Byte> := [1, 1, 1]

  /** Four files created one after the other, the first and the third with two bytes each, in a store of four bytes. */
  ghost predicate FourFiles(st: Store, a: int) {
    && st.files.Keys == {A, B, C, D} && st.used == 4
    && Item(st, A, a, 1, TWO, false) && Item(st, B, a, 2, [], true)
    && Item(st, C, a, 3, TWO, false) && Item(st, D, a, 4, [], true)
  }

  lemma OneIsFull(cfg: Config, a: int) returns (states: seq<State>, events: seq<Event>, st: Store)
    requires ConfigOk(cfg) && cfg.maxMemory == 4 && cfg.maxFiles >= 4 && a != NOBODY
    ensures Reached(cfg, states, events, st, a) && Item(st, A, a, 1, TWO, false)
    ensures st.files.Keys == {A} && st.used == 2 && st.count == 1
  {
    Starts(cfg, a);
    states, events, st := [Initial(), Alone(EmptyStore(), a, Idle, [])], [Connect(a)], EmptyStore();
    hide Steps, Segment;
    assert Reached(cfg, states, events, st, a);
    hide Reached, Item, OnlyNew, Alone, Initial;
    states, events, st := CreatesFile(cfg, states, events, st, a, A, 1);
    states, events, st := FillsFile(cfg, states, events, st, a, A, 1, TWO);
  }

  lemma TwoAreFull(cfg: Config, a: int) returns (states: seq<State>, events: seq<Event>, st: Store)
    requires ConfigOk(cfg) && cfg.maxMemory == 4 && cfg.maxFiles >= 4 && a != NOBODY
    ensures Reached(cfg, states, events, st, a)
    ensures Item(st, A, a, 1, TWO, false) && Item(st, B, a, 2, [], true) && Item(st, C, a, 3, TWO, false)
    ensures st.files.Keys == {A, B, C} && st.used == 4 && st.count == 3
  {
    hide Reached, Item, OnlyNew;
    NamesDiffer();
    states, events, st := OneIsFull(cfg, a);
    var st0 := st;
    states, events, st := CreatesFile(cfg, states, events, st, a, B, 2);
    ItemStays(st0, st, B, A, a, 1, TWO, false);
    var st1 := st;
    states, events, st := CreatesFile(cfg, states, events, st, a, C, 3);
    ItemStays(st1, st, C, A, a, 1, TWO, false);
    ItemStays(st1, st, C, B, a, 2, [], true);
    var st2 := st;
    states, events, st := FillsFile(cfg, states, events, st, a, C, 3, TWO);
    ItemStays(st2, st, C, A, a, 1, TWO, false);
    ItemStays(st2, st, C, B, a, 2, [], true);
  }

  lemma Prepared(cfg: Config, a: int) returns (states: seq<State>, events: seq<Event>, st: Store)
    requires ConfigOk(cfg) && cfg.maxMemory == 4 && cfg.maxFiles >= 4 && a != NOBODY
    ensures Reached(cfg, states, events, st, a) && FourFiles(st, a)
  {
    hide Reached, Item, OnlyNew;
    NamesDiffer();
    states, events, st := TwoAreFull(cfg, a);
    var st0 := st;
    states, events, st := CreatesFile(cfg, states, events, st, a, D, 4);
    ItemStays(st0, st, D, A, a, 1, TWO, false);
    ItemStays(st0, st, D, B, a, 2, [], true);
    ItemStays(st0, st, D, C, a, 3, TWO, false);
  }

  lemma NamesDiffer()
    ensures A != B && A != C && A != D && B != C && B != D && C != D
  {
    assert A[0] != B[0] && A[0] != C[0] && A[0] != D[0] && B[0] != C[0] && B[0] != D[0] && C[0] != D[0];
  }

  lemma OldestFirst(st: Store, a: int)
    requires FourFiles(st, a)
    ensures PolicyOrder(Fifo, st.files, [A, B, C, D])
  {
    hide Consistent;
    NamesDiffer();
    forall p ensures p in [A, B, C, D] <==> p in st.files {
      assert p in st.files <==> p in st.files.Keys;
    }
  }

  /** Two, no and two bytes, of which three are needed. */
  lemma AllThree(files: FileMap)
    requires A in files && B in files && C in files && D in files
    requires files[A].size == 2 && files[B].size == 0 && files[C].size == 2
    ensures Select(files, [A, B, C, D], D, 3) == [A, B, C] && Total(files, [A, B, C]) == 4
  {
    hide Select, Total;
    NamesDiffer();
    SelectCons(files, A, [B, C, D], D, 3);
    SelectCons(files, B, [C, D], D, 1);
    SelectCons(files, C, [D], D, 1);
    assert [A] + ([B] + ([C] + [])) == [A, B, C] && [A] + [B, C, D] == [A, B, C, D];
    assert [B] + [C, D] == [B, C, D] && [C] + [D] == [C, D];
    TotalCons(files, A, [B, C]);
    TotalCons(files, B, [C]);
    TotalCons(files, C, []);
    assert [A] + [B, C] == [A, B, C] && [B] + [C] == [B, C] && [C] + [] == [C];
  }

  lemma ThreeVictims(cfg: Config, st: Store, a: int)
    requires ConfigOk(cfg) && Accounts(cfg, st) && cfg.maxMemory == 4 && FourFiles(st, a)
    ensures (forall q :: q in [A, B, C, D] ==> q in st.files) && ToReplace(cfg, st, D, THREE, [A, B, C, D]) == [A, B, C]
    ensures MakeRoom(cfg, st, D, 3, [A, B, C, D]).Made?
  {
    hide Accounts, SizeMissing, NotifyMemory, Evict, Select, Total;
    ArithmeticIsExact(cfg, st, 3);
    AllThree(st.files);
  }

  lemma SelectCons(files: FileMap, p: Path, rest: seq<Path>, skip: Path, need: int)
    requires p in files && (forall q :: q in rest ==> q in files) && need > 0 && p != skip
    ensures var less := need - files[p].size;
            Select(files, [p] + rest, skip, need) == [p] + if less <= 0 then [] else Select(files, rest, skip, less)
  {
    assert ([p] + rest)[1..] == rest;
  }

  lemma TotalCons(files: FileMap, p: Path, rest: seq<Path>)
    requires p in files && forall q :: q in rest ==> q in files
    ensures Total(files, [p] + rest) == files[p].size + Total(files, rest)
    ensures Total(files, []) == 0
  {
    assert ([p] + rest)[1..] == rest;
  }

  lemma NobodyWaits(files: FileMap, victims: seq<Path>)
    requires forall v :: v in victims ==> v in files && files[v].waiters.items == []
    ensures EvictionNotes(files, victims) == []
  {
    if victims != [] {
      NobodyWaits(files, victims[1..]);
    }
  }

  const BROUGHT_BACK: Reply := Several([(A, TWO), (B, []), (C, TWO)])

  lemma ThreeComeBack(st: Store, a: int)
    requires FourFiles(st, a)
    ensures Several(Payload(st.files, [A, B, C])) == BROUGHT_BACK && EvictionNotes(st.files, [A, B, C]) == []
  {
    NobodyWaits(st.files, [A, B, C]);
    hide EvictionNotes;
    var payload := Payload(st.files, [A, B, C]);
    hide Payload;
    assert Files.Content(st.files[A]) == TWO && Files.Content(st.files[B]) == [] && Files.Content(st.files[C]) == TWO;
    assert payload == [(A, TWO), (B, []), (C, TWO)];
  }

  lemma LastAnswer(cfg: Config, st: Store, a: int) returns (st': Store)
    requires ConfigOk(cfg) && Accounts(cfg, st) && Coherent(st) && cfg.maxMemory == 4 && FourFiles(st, a) && a != NOBODY
    ensures forall q :: q in [A, B, C, D] ==> q in st.files
    ensures Handle(cfg, st, a, Append(D, true, THREE), Time(5, 0), [A, B, C, D]) == Done(st', [Note(a, BROUGHT_BACK)])
  {
    hide PutContent, MakeRoom, EvictionNotes, Payload, Accounts;
    ThreeVictims(cfg, st, a);
    ThreeComeBack(st, a);
    var f := Touch(AppendContent(cfg.recordTotal, st.files[D], THREE).(writable := false), Time(5, 0));
    PutContentOutcome(cfg, st, a, D, f, 3, true, [A, B, C, D]);
    st' := HandleAppend(cfg, st, a, D, true, THREE, Time(5, 0), [A, B, C, D]).store;
  }

  lemma BroughtBackIsMisread(rest: seq<Byte>)
    ensures DecodeReply(Wire.Replaced, EncodeReply(BROUGHT_BACK) + rest) == Misread
  {
    hide DecodeReply, EncodeReply;
    assert BROUGHT_BACK.files[0].1 != [] && BROUGHT_BACK.files[1].1 == [];
    ReplyRoundTrip(Wire.Replaced, BROUGHT_BACK, rest);
  }

  /**
    A client alone creates four files under FIFO, fills the first and the third, and appends to the last, which drives
    out the others: full, empty, full. It frees the first file's buffer again when it reads of the second.
  */
  lemma SecondFree(cfg: Config, a: int, rest: seq<Byte>)
    returns (states: seq<State>, events: seq<Event>, order: seq<Path>)
    requires ConfigOk(cfg) && cfg.policy == Fifo && cfg.maxMemory == 4 && cfg.maxFiles >= 4 && a != NOBODY
    ensures Run(cfg, states, events) && |events| >= 2
    ensures events[|events| - 2..] == [Send(a, Append(D, true, THREE)), HandleIt(a, Time(5, 0), order)]
    ensures states[|states| - 1].outbox == [Note(a, Several([(A, TWO), (B, []), (C, TWO)]))]
    ensures DecodeReply(Expects(Append(D, true, THREE)), EncodeReply(states[|states| - 1].outbox[0].reply) + rest)
            == Misread
  {
    hide Handle, Steps, DecodeReply, EncodeReply, PolicyOrder, Accounts, Inv, HandlerPre, FourFiles;
    var st;
    states, events, st := Prepared(cfg, a);
    order := [A, B, C, D];
    var req, now := Append(D, true, THREE), Time(5, 0);
    var any := ReachedIsSound(cfg, states, events, st, a);
    OldestFirst(st, a);
    var st' := LastAnswer(cfg, st, a);
    states, events := EndsWith(cfg, states, events, st, a, req, now, order, st', BROUGHT_BACK);
    BroughtBackIsMisread(rest);
  }

  /** One more request, handled but not yet answered. */
  lemma EndsWith(cfg: Config, states: seq<State>, events: seq<Event>, st: Store, a: int, req: Request, now: Time,
        order: seq<Path>, st': Store, reply: Reply)
    returns (states': seq<State>, events': seq<Event>)
    requires Reached(cfg, states, events, st, a) && Coherent(st) && PolicyOrder(cfg.policy, st.files, order)
    requires Handle(cfg, st, a, req, now, order) == Done(st', [Note(a, reply)])
    ensures Run(cfg, states', events') && events' == events + [Send(a, req), HandleIt(a, now, order)]
    ensures states'[|states'| - 1].outbox == [Note(a, reply)]
  {
    hide Handle, PolicyOrder, Steps, Segment;
    Asks(cfg, st, a, req);
    SegmentSnoc(cfg, states, events, Send(a, req), Alone(st, a, Sent(req), []));
    states', events' := states + [Alone(st, a, Sent(req), [])], events + [Send(a, req)];
    IsServed(cfg, st, a, req, now, order, st', reply);
    SegmentSnoc(cfg, states', events', HandleIt(a, now, order), Alone(st', a, Blocked, [Note(a, reply)]));
    states', events' := states' + [Alone(st', a, Blocked, [Note(a, reply)])], events' + [HandleIt(a, now, order)];
  }
}
