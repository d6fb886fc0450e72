/** One job on a worker, as a system of concurrent steps.

    Four threads share memory and the disk: the handler of the job, and one connection
    handler for each of the three transfers (code, reducer, train). Every shared read or
    write, every receive, every append to a file, every read of the train file and every
    write to the child is one step, and steps interleave freely. */
module Worker {
  import opened Options
  import opened Files
  import opened Words
  import opened Decimal
  import opened Wire
  import opened Feed

  datatype Role = Code | Reducer | Train

  // What a connection carries: what the receiver reads from its bytes (`Wire.Parse` of
  // them), and what they were meant to say.
  datatype Transfer = Transfer(parsed: Parsed, folder: Bytes, path: Bytes, contents: Bytes)

  // `codeFile` and `trainFile` are the paths the handler compiles and opens, `prior` is
  // the program compiled by an earlier job of the process (compileCode compiles once),
  // and `run` is what a compiled program prints for its standard input.
  datatype Job = Job(
    code: Transfer, reducer: Transfer, train: Transfer,
    codeFile: Bytes, trainFile: Bytes,
    prior: Option<Bytes>, run: (Bytes, Bytes) -> string)

  function TransferOf(p: Job, role: Role): Transfer {
    match role
    case Code => p.code
    case Reducer => p.reducer
    case Train => p.train
  }

  function Meaning(t: Transfer): Parsed {
    Accepted(Header(t.folder, t.path, |t.contents|), t.contents)
  }

  predicate Readable(t: Transfer) {
    t.parsed == Meaning(t)
  }

  // The bytes of each connection are those of an acceptable transfer, and the files end
  // up where the handler looks for them.
  ghost predicate Ready(p: Job): (r: bool)
    ensures CODE != TRAIN && REDUCER != CODE && REDUCER != TRAIN
    ensures r ==> p.code.path != p.train.path && p.reducer.path != p.train.path && p.reducer.path != p.code.path
  {
    FoldersDiffer();
    FilesDiffer(p.code.path, CODE, p.train.path, TRAIN);
    FilesDiffer(p.reducer.path, REDUCER, p.train.path, TRAIN);
    FilesDiffer(p.reducer.path, REDUCER, p.code.path, CODE);
    && Readable(p.code) && Readable(p.reducer) && Readable(p.train)
    && p.code.folder == CODE && p.reducer.folder == REDUCER && p.train.folder == TRAIN
    && LiesIn(p.code.path, CODE) && LiesIn(p.reducer.path, REDUCER) && LiesIn(p.train.path, TRAIN)
    && p.code.path == p.codeFile && p.train.path == p.trainFile
    && |p.train.contents| < TWO_64 / 2
  }

  // ------------------------------------------------------------ states

  datatype ReceiverPc =
    | Unsent      // the client has not connected yet
    | Knocking    // about to read the gate
    | TurnedAway
    | Reading     // about to read the header and, for train, to store the file size
    | Counting    // about to clear processedBytes
    | Creating    // about to open and truncate the file
    | Signalling  // about to resume mesh_info_2
    | Receiving   // at the head of the loop
    | Appending   // a block is being written to the file
    | Publishing  // about to store processedBytes
    | Finishing   // the file is closed; about to resume mesh_info_1
    | Finished
    | Failed      // the header was not acceptable

  datatype Receiver = Receiver(pc: ReceiverPc, header: Header, rest: Bytes, received: nat, buffer: Bytes)

  datatype HandlerPc =
    | Opening     // about to open the gate
    | Inviting    // about to tell the client
    | Waiting1
    | Compiling
    | Waiting2
    | Starting    // about to open the train file
    | Checking    // about to compare offset with Shared_fileSize
    | Measuring   // about to read processedBytes
    | Feeding     // about to read from the train file
    | Piping      // a block is being written to the child
    | Folding     // the child has seen the end of its input
    | Replying
    | Closing     // about to close the gate
    | Ended

  // `pos` and `left` are the variables of the feed loop, `fed` what the child received so
  // far; `segments` records what was given to each run of the program.
  datatype Handler = Handler(
    pc: HandlerPc, offset: int, remaining: int, acc: int,
    pos: int, left: int, buffer: Bytes, fed: Bytes, segments: seq<Bytes>)

  // What the threads share: the gate, the signal flags, Shared_fileSize, processedBytes,
  // the disk and the compiled program, and what was sent on the job's own connection.
  datatype Memory = Memory(
    gate: bool, flag1: bool, flag2: bool, fileSize: int, processed: int,
    disk: map<Bytes, Bytes>, binary: Option<Bytes>, invited: bool, reply: Option<string>)

  datatype State = State(m: Memory, h: Handler, code: Receiver, reducer: Receiver, train: Receiver)

  function ReceiverOf(s: State, role: Role): Receiver {
    match role
    case Code => s.code
    case Reducer => s.reducer
    case Train => s.train
  }

  function SetReceiver(s: State, role: Role, m: Memory, r: Receiver): State {
    match role
    case Code => s.(m := m, code := r)
    case Reducer => s.(m := m, reducer := r)
    case Train => s.(m := m, train := r)
  }

  function FileAt(disk: map<Bytes, Bytes>, path: Bytes): Bytes {
    if path in disk then disk[path] else []
  }

  const NEW_RECEIVER := Receiver(Unsent, Header([], [], 0), [], 0, [])
  const NEW_HANDLER := Handler(Opening, 0, 0, 0, 0, 0, [], [], [])

  // A job begins on a process that is otherwise at rest. The disk, the counters and the
  // compiled program are whatever earlier jobs left behind.
  ghost predicate Begins(p: Job, s: State) {
    && !s.m.gate && !s.m.flag1 && !s.m.flag2 && !s.m.invited && s.m.reply == None
    && s.m.binary == p.prior
    && s.h == NEW_HANDLER
    && s.code == NEW_RECEIVER && s.reducer == NEW_RECEIVER && s.train == NEW_RECEIVER
  }

  // ------------------------------------------------------------ steps of a connection

  predicate ReceiverEnabled(r: Receiver) {
    match r.pc
    case Knocking | Reading | Counting | Creating | Signalling | Publishing | Finishing => true
    case Receiving => r.received >= r.header.size
    case Unsent | TurnedAway | Appending | Finished | Failed => false
  }

  // `parsed` is what the bytes of the connection say.
  function ReceiverStep(parsed: Parsed, m: Memory, r: Receiver): (Memory, Receiver)
    requires ReceiverEnabled(r)
  {
    var isTrain := r.header.folder == TRAIN;
    match r.pc
    case Knocking =>
      (m, r.(pc := if m.gate then Reading else TurnedAway))
    case Reading =>
      (match parsed
       case Accepted(header, rest) =>
         (if header.folder == TRAIN then m.(fileSize := Signed64(header.size)) else m,
          r.(pc := Counting, header := header, rest := rest))
       case Malformed => (m, r.(pc := Failed))
       case Refused(folder, size) =>
         (if folder == TRAIN then m.(fileSize := Signed64(size), processed := 0) else m, r.(pc := Failed)))
    case Counting =>
      (if isTrain then m.(processed := 0) else m, r.(pc := Creating))
    case Creating =>
      (m.(disk := m.disk[r.header.path := []]), r.(pc := Signalling))
    case Signalling =>
      (if isTrain then m.(flag2 := true) else m, r.(pc := Receiving))
    case Receiving =>
      (m, r.(pc := Finishing))
    case Publishing =>
      (if isTrain then m.(processed := r.received) else m, r.(pc := Receiving))
    case Finishing =>
      (if r.header.folder == CODE then m.(flag1 := true) else m, r.(pc := Finished))
  }

  // A transfer that is not accepted ends its connection. It touches no file and gives no
  // signal, but the counters of the train file are those of the refused one.
  lemma {:induction false} NotAccepted(parsed: Parsed, m: Memory, r: Receiver)
    requires r.pc.Reading? && !parsed.Accepted?
    ensures var (m', r') := ReceiverStep(parsed, m, r);
            && r'.pc.Failed? && (forall a :: !ConnectionEnabled(r', a))
            && m' == m.(fileSize := m'.fileSize, processed := m'.processed)
            && (parsed.Malformed? ==> m' == m)
            && (parsed.Refused? && parsed.folder != TRAIN ==> m' == m)
            && (parsed.Refused? && parsed.folder == TRAIN ==>
                  m'.fileSize == Signed64(parsed.size) && m'.processed == 0)
  {
  }

  predicate RecvEnabled(r: Receiver, n: nat) {
    && r.pc == Receiving && r.received < r.header.size
    && 1 <= n <= BLOCK_SIZE && r.received + n <= r.header.size && r.received + n <= |r.rest|
  }

  // The local count is advanced with the receive: no other thread sees it before it is
  // published, which happens after the block is on disk.
  function RecvStep(r: Receiver, n: nat): Receiver
    requires RecvEnabled(r, n)
  {
    r.(pc := Appending, buffer := r.rest[r.received..r.received + n], received := r.received + n)
  }

  predicate AppendEnabled(r: Receiver, n: nat) {
    r.pc == Appending && 1 <= n <= |r.buffer|
  }

  function AppendStep(m: Memory, r: Receiver, n: nat): (Memory, Receiver)
    requires AppendEnabled(r, n)
  {
    var file := FileAt(m.disk, r.header.path) + r.buffer[..n];
    (m.(disk := m.disk[r.header.path := file]),
     r.(pc := if n == |r.buffer| then Publishing else Appending, buffer := r.buffer[n..]))
  }

  // A receive returns any number of bytes up to 64 KiB and what is still missing.
  lemma {:induction false} RecvSizes(r: Receiver, n: nat)
    requires r.pc.Receiving? && r.received + n <= r.header.size && r.header.size <= |r.rest|
    ensures RecvEnabled(r, n) <==> 1 <= n <= 0x1_0000
  {
  }

  // ------------------------------------------------------------ steps of the handler

  predicate HandlerEnabled(m: Memory, h: Handler) {
    match h.pc
    case Waiting1 => m.flag1
    case Waiting2 => m.flag2
    case Feeding => h.left <= 0
    case Piping | Ended => false
    case Opening | Inviting | Compiling | Starting | Checking | Measuring | Folding | Replying | Closing => true
  }

  // What the program prints: without a compiled program the child exits silently.
  function Output(p: Job, binary: Option<Bytes>, input: Bytes): string {
    match binary
    case Some(b) => p.run(b, input)
    case None => ""
  }

  // The int made of one run of the program.
  function Temp(p: Job, m: Memory, h: Handler): int {
    ToInt(NodeResult(Output(p, m.binary, h.fed)))
  }

  // A process without a compiled program makes -1 of everything.
  lemma {:induction false} NoProgram(p: Job, m: Memory, h: Handler)
    requires m.binary == None
    ensures Temp(p, m, h) == -1
  {
    hide NodeResult, Wrap, Pow2;
    assert Output(p, m.binary, h.fed) == "";
    NodeResultIs(0, "");
    IntIsUnique(-1, -1);
  }

  // `source` is the code file as the handler finds it, `temp` the result of its run.
  function HandlerStep(source: Bytes, temp: int, m: Memory, h: Handler): (Memory, Handler)
    requires HandlerEnabled(m, h)
  {
    match h.pc
    case Opening => (m.(gate := true), h.(pc := Inviting))
    case Inviting => (m.(invited := true), h.(pc := Waiting1))
    case Waiting1 => (m.(flag1 := false), h.(pc := Compiling))
    case Compiling =>
      (m.(binary := if m.binary.Some? then m.binary else Some(source)), h.(pc := Waiting2))
    case Waiting2 => (m.(flag2 := false), h.(pc := Starting))
    case Starting => (m, h.(pc := Checking, offset := 0, remaining := 0, acc := 0))
    case Checking => (m, h.(pc := if h.offset == m.fileSize then Replying else Measuring))
    case Measuring =>
      var remaining := m.processed - h.offset;
      (m, h.(pc := Feeding, remaining := remaining, pos := h.offset, left := remaining, fed := []))
    case Feeding => (m, h.(pc := Folding))
    case Folding =>
      (m, h.(pc := Checking, acc := Xor(h.acc, temp), offset := h.offset + h.remaining,
             segments := h.segments + [h.fed]))
    case Replying => (m.(reply := Some(ToString(h.acc))), h.(pc := Closing))
    case Closing => (m.(gate := false), h.(pc := Ended))
  }

  // A read is limited by the buffer and by what is left to feed; at the end of the file
  // it returns nothing.
  predicate PreadEnabled(h: Handler, file: Bytes, n: nat) {
    && h.pc == Feeding && h.left > 0 && h.pos >= 0
    && n <= BUF_SIZE && n <= h.left
    && if h.pos < |file| then n >= 1 && h.pos + n <= |file| else n == 0
  }

  function PreadStep(h: Handler, file: Bytes, n: nat): Handler
    requires PreadEnabled(h, file, n)
  {
    h.(pc := if n == 0 then Feeding else Piping, buffer := Slice(file, h.pos, n), pos := h.pos + n, left := h.left - n)
  }

  // It returns any number of bytes up to 64 KiB, what is left to feed and what is there.
  lemma {:induction false} PreadSizes(h: Handler, file: Bytes, n: nat)
    requires h.pc.Feeding? && 0 <= h.pos < |file| && n <= h.left && h.pos + n <= |file|
    ensures PreadEnabled(h, file, n) <==> 1 <= n <= 0x1_0000
  {
  }

  predicate PipeEnabled(h: Handler, n: nat) {
    h.pc == Piping && 1 <= n <= |h.buffer|
  }

  function PipeStep(h: Handler, n: nat): Handler
    requires PipeEnabled(h, n)
  {
    h.(pc := if n == |h.buffer| then Feeding else Piping, fed := h.fed + h.buffer[..n], buffer := h.buffer[n..])
  }

  // ------------------------------------------------------------ schedules

  datatype Action =
    | Request(role: Role)            // the client connects and asks to share a file
    | Receive(role: Role)            // the next step of a connection handler
    | Recv(role: Role, n: nat)       // it receives n bytes of the file
    | Append(role: Role, n: nat)     // n bytes of its block reach the file
    | Handle                         // the next step of the job's handler
    | Pread(n: nat)                  // it reads n bytes of the train file
    | Pipe(n: nat)                   // it writes n bytes to the child

  predicate ConnectionEnabled(r: Receiver, a: Action) {
    match a
    case Request(_) => r.pc.Unsent?
    case Receive(_) => ReceiverEnabled(r)
    case Recv(_, n) => RecvEnabled(r, n)
    case Append(_, n) => AppendEnabled(r, n)
    case _ => false
  }

  predicate Enabled(p: Job, s: State, a: Action) {
    match a
    case Handle => HandlerEnabled(s.m, s.h)
    case Pread(n) => PreadEnabled(s.h, FileAt(s.m.disk, p.trainFile), n)
    case Pipe(n) => PipeEnabled(s.h, n)
    case _ => ConnectionEnabled(ReceiverOf(s, a.role), a) && (a.Request? ==> s.m.invited)
  }

  // The step of one connection: the memory and the connection after it.
  function ConnectionStep(parsed: Parsed, m: Memory, r: Receiver, a: Action): (Memory, Receiver)
    requires ConnectionEnabled(r, a)
  {
    match a
    case Request(_) => (m, r.(pc := Knocking))
    case Receive(_) => ReceiverStep(parsed, m, r)
    case Recv(_, n) => (m, RecvStep(r, n))
    case Append(_, n) => AppendStep(m, r, n)
  }

  predicate IsHandlers(a: Action) {
    a.Handle? || a.Pread? || a.Pipe?
  }

  function ApplyHandle(p: Job, s: State): State
    requires HandlerEnabled(s.m, s.h)
  {
    var (m, h) := HandlerStep(FileAt(s.m.disk, p.codeFile), Temp(p, s.m, s.h), s.m, s.h);
    s.(m := m, h := h)
  }

  function ApplyConnection(parsed: Parsed, s: State, a: Action): State
    requires !IsHandlers(a) && ConnectionEnabled(ReceiverOf(s, a.role), a)
  {
    var (m, r) := ConnectionStep(parsed, s.m, ReceiverOf(s, a.role), a);
    SetReceiver(s, a.role, m, r)
  }

  function Apply(p: Job, s: State, a: Action): State
    requires Enabled(p, s, a)
  {
    match a
    case Handle => ApplyHandle(p, s)
    case Pread(n) => s.(h := PreadStep(s.h, FileAt(s.m.disk, p.trainFile), n))
    case Pipe(n) => s.(h := PipeStep(s.h, n))
    case _ => ApplyConnection(TransferOf(p, a.role).parsed, s, a)
  }

  // The schedule `acts` leads from `s` to `t`.
  ghost predicate Run(p: Job, s: State, acts: seq<Action>, t: State)
    decreases |acts|
  {
    if acts == [] then s == t
    else Enabled(p, s, acts[0]) && Run(p, Apply(p, s, acts[0]), acts[1..], t)
  }
}
