// The stream of commands between the driver and the service manager: what a read writes into
// the buffer, word by word, and what the parser makes of it.
module CommandStream {
  import opened Base

  const TXN_WORDS := 10

  datatype Kind = Increfs | Acquire | Release | Decrefs

  datatype Command =
    | Complete | FailedReply | DeadReply
    | Count(kind: Kind, ptr: Word, cookie: Word)
    | Transaction(txn: seq<Word>)
    | Reply(txn: seq<Word>)
    | DeadBinder(cookie: Word)

  predicate IsCommand(c: Command) {
    c.Transaction? || c.Reply? ==> |c.txn| == TXN_WORDS
  }

  const NOOP: Word := 0x720c
  const SPAWN_LOOPER: Word := 0x720d

  function KindCode(k: Kind): Word {
    match k
    case Increfs => 0x8008_7207
    case Acquire => 0x8008_7208
    case Release => 0x8008_7209
    case Decrefs => 0x8008_720a
  }

  function Code(c: Command): Word {
    match c
    case Complete => 0x7206
    case FailedReply => 0x7211
    case DeadReply => 0x7205
    case Count(k, _, _) => KindCode(k)
    case Transaction(_) => 0x8028_7202
    case Reply(_) => 0x8028_7203
    case DeadBinder(_) => 0x8004_720f
  }

  function Operands(c: Command): seq<Word> {
    match c
    case Count(_, ptr, cookie) => [ptr, cookie]
    case Transaction(txn) => txn
    case Reply(txn) => txn
    case DeadBinder(cookie) => [cookie]
    case _ => []
  }

  /** How ioctl-style codes are put together: direction, size of what follows, type, number. */
  function Ioc(dir: nat, size: nat, nr: nat): int { dir * 0x4000_0000 + size * 0x1_0000 + 0x72 * 0x100 + nr }

  /** The place of a command in the driver's protocol. */
  function Number(c: Command): nat {
    match c
    case Transaction(_) => 2
    case Reply(_) => 3
    case DeadReply => 5
    case Complete => 6
    case Count(k, _, _) => (match k case Increfs => 7 case Acquire => 8 case Release => 9 case Decrefs => 10)
    case DeadBinder(_) => 15
    case FailedReply => 17
  }

  /** A command's code is its number, and says how many bytes of operands follow. */
  lemma CodeTellsSize(c: Command)
    requires IsCommand(c)
    ensures Code(c) == Ioc(if Operands(c) == [] then 0 else 2, 4 * |Operands(c)|, Number(c))
    ensures NOOP == Ioc(0, 0, 12) && SPAWN_LOOPER == Ioc(0, 0, 13)
  {
  }

  /** A node is named by its address first and then by its cookie, in 32-bit words. */
  lemma CountWords(k: Kind, ptr: Word, cookie: Word)
    ensures var ws := Words(Count(k, ptr, cookie)); |ws| == 3 && ws[1] == ptr && ws[2] == cookie
  {
  }

  function Encode(cs: seq<Command>): seq<Word> {
    if cs == [] then [] else Words(cs[0]) + Encode(cs[1..])
  }

  function Words(c: Command): seq<Word> { [Code(c)] + Operands(c) }

  lemma {:induction false} EncodeJoin(a: seq<Command>, b: seq<Command>)
    ensures Encode(a + b) == Encode(a) + Encode(b)
    decreases |a|
  {
    if a == [] {
      assert a + b == b;
    } else {
      assert (a + b)[1..] == a[1..] + b;
      EncodeJoin(a[1..], b);
    }
  }

  lemma {:induction false} EncodeNext(a: seq<Command>, c: Command)
    ensures Encode(a + [c]) == Encode(a) + Words(c)
  {
    EncodeJoin(a, [c]);
    assert [c][1..] == [];
  }

  // ---- Reading -------------------------------------------------------------------------------

  /** What waits for a thread. A node's work item stands for the commands it has yet to give,
      one at a time. */
  datatype Work = Completion | Call(c: Command) | NodeWork(cmds: seq<Command>) | Death(cookie: Word)

  predicate IsWork(w: Work) {
    match w
    case Call(c) => (c.Transaction? || c.Reply?) && IsCommand(c)
    case NodeWork(cmds) => forall i :: 0 <= i < |cmds| ==> cmds[i].Count?
    case _ => true
  }

  function CommandsOf(w: Work): seq<Command> {
    match w
    case Completion => [Complete]
    case Call(c) => [c]
    case NodeWork(cmds) => cmds
    case Death(cookie) => [DeadBinder(cookie)]
  }

  /** Every command the work stands for, in order. */
  function Pending(ws: seq<Work>): seq<Command> {
    if ws == [] then [] else CommandsOf(ws[0]) + Pending(ws[1..])
  }

  /** Commands after which a read returns. */
  predicate EndsRead(c: Command) { c.Transaction? || c.Reply? || c.DeadBinder? }

  function Steps(ws: seq<Work>): nat {
    if ws == [] then 0 else 1 + |CommandsOf(ws[0])| + Steps(ws[1..])
  }

  /** The loop of binder_thread_read over the work a thread may take, its own first. The
      commands are ghost: what is returned is the words. Together with what is left they are
      all there was, in order; the read ends with the first command that ends one, and
      otherwise goes on while there is room for a transaction. */
  method ReadWork(queue: seq<Work>, room: nat) returns (out: seq<Word>, rest: seq<Work>, ghost cs: seq<Command>)
    requires forall i :: 0 <= i < |queue| ==> IsWork(queue[i])
    ensures out == Encode(cs) && |out| <= room && AreCommands(cs)
    ensures cs + Pending(rest) == Pending(queue)
    ensures forall i :: 0 <= i < |cs| - 1 ==> !cs[i].Transaction? && !cs[i].Reply? && !cs[i].DeadBinder?
    ensures rest != [] && |out| + 1 + TXN_WORDS <= room ==>
      cs != [] && var last := cs[|cs| - 1]; last.Transaction? || last.Reply? || last.DeadBinder?
  {
    out, rest, cs := [], queue, [];
    while rest != []
      invariant out == Encode(cs) && |out| <= room && cs + Pending(rest) == Pending(queue)
      invariant AreCommands(cs) && forall i :: 0 <= i < |cs| ==> !EndsRead(cs[i])
      invariant forall i :: 0 <= i < |rest| ==> IsWork(rest[i])
      decreases Steps(rest)
    {
      if room - |out| < TXN_WORDS + 1 { return; }
      var c, ws;
      ghost var before := Pending(rest);
      c, ws, rest := Next(rest);
      if c.Some? {
        EncodeNext(cs, c.value);
        Shifted(cs, c.value, before, Pending(rest));
        out, cs := out + ws, cs + [c.value];
        if EndsRead(c.value) { return; }
      } else {
        assert before == Pending(rest);
      }
    }
  }

  lemma {:induction false} Shifted(a: seq<Command>, c: Command, before: seq<Command>, after: seq<Command>)
    requires before == [c] + after
    ensures a + before == (a + [c]) + after
  {
  }

  /** Takes one command from the first work item, or the item away if it has none. */
  method Next(queue: seq<Work>) returns (c: Option<Command>, ws: seq<Word>, rest: seq<Work>)
    requires queue != [] && forall i :: 0 <= i < |queue| ==> IsWork(queue[i])
    ensures (forall i :: 0 <= i < |rest| ==> IsWork(rest[i])) && Steps(rest) < Steps(queue)
    ensures Pending(queue) == (if c.Some? then [c.value] else []) + Pending(rest)
    ensures c.Some? ==> ws == Words(c.value) && |ws| <= TXN_WORDS + 1 && IsCommand(c.value)
  {
    var w := queue[0];
    if w.NodeWork? && w.cmds == [] { return None, [], queue[1..]; }
    var cmd := CommandsOf(w)[0];
    ws := Put(cmd);
    PendingNext(queue);
    c, rest := Some(cmd), if w.NodeWork? then [NodeWork(w.cmds[1..])] + queue[1..] else queue[1..];
  }

  lemma {:induction false} PendingNext(ws: seq<Work>)
    requires ws != [] && CommandsOf(ws[0]) != []
    ensures var rest := if ws[0].NodeWork? then [NodeWork(ws[0].cmds[1..])] + ws[1..] else ws[1..];
      Pending(ws) == [CommandsOf(ws[0])[0]] + Pending(rest) && Steps(rest) < Steps(ws)
  {
    if ws[0].NodeWork? {
      var rest := [NodeWork(ws[0].cmds[1..])] + ws[1..];
      assert rest[1..] == ws[1..];
      FirstOf(ws[0].cmds, Pending(ws[1..]));
    }
  }

  lemma {:induction false} FirstOf(cmds: seq<Command>, more: seq<Command>)
    requires cmds != []
    ensures cmds + more == [cmds[0]] + (cmds[1..] + more)
  {
  }

  /** Writes one command and its operands. */
  method Put(c: Command) returns (ws: seq<Word>)
    ensures ws == Words(c)
  {
    ws := [Code(c)];
    match c {
      case Count(_, ptr, cookie) =>
        ws := ws + [ptr];
        ws := ws + [cookie];
      case Transaction(txn) => ws := ws + txn;
      case Reply(txn) => ws := ws + txn;
      case DeadBinder(cookie) => ws := ws + [cookie];
      case _ =>
    }
  }

  /** What a thread may have in return_error: a reply that failed leaves Complete there. */
  predicate IsCode(c: Command) { c.FailedReply? || c.DeadReply? || c.Complete? }

  /** binder_thread_read. Errors to report go first and alone; a read with nothing in it is
      returned only to a thread told to return, and otherwise waits for work, which is None
      here. At the end a request for another thread is written over the first word. */
  method ThreadRead(error: Option<Command>, error2: Option<Command>, queue: seq<Work>, room: nat, needReturn: bool,
                    spawn: bool)
    returns (out: Option<seq<Word>>, rest: seq<Work>, ghost cs: seq<Command>)
    requires forall i :: 0 <= i < |queue| ==> IsWork(queue[i])
    requires error.Some? ==> IsCode(error.value)
    requires error2.Some? ==> IsCode(error2.value)
    ensures out.Some? ==> |out.value| == |Encode(cs)| <= room && AreCommands(cs)
    ensures out.Some? ==> out.value == if spawn && cs != [] then Encode(cs)[0 := SPAWN_LOOPER] else Encode(cs)
    ensures error.Some? && room > 0 ==>
      && out.Some? && rest == queue
      && cs == if error2.None? then [error.value] else if room == 1 then [error2.value] else [error2.value, error.value]
    ensures (error.None? || room == 0) && out.Some? ==> cs + Pending(rest) == Pending(queue)
    ensures room > TXN_WORDS && out == Some([]) ==> needReturn
    ensures out.None? ==> Pending(queue) == [] && !needReturn
  {
    rest := queue;
    var words: seq<Word>;
    if error.Some? && room > 0 {
      words, cs := ReportErrors(error.value, error2, room);
    } else {
      words, rest, cs := ReadWork(queue, room);
      if rest == [] && words == [] && !needReturn { return None, rest, cs; }
    }
    if spawn && words != [] { words := words[0 := SPAWN_LOOPER]; }
    out := Some(words);
  }

  method ReportErrors(error: Command, error2: Option<Command>, room: nat)
    returns (words: seq<Word>, ghost cs: seq<Command>)
    requires room > 0 && IsCode(error)
    requires error2.Some? ==> IsCode(error2.value)
    ensures words == Encode(cs) && |words| <= room && AreCommands(cs) && cs != []
    ensures cs == if error2.None? then [error] else if room == 1 then [error2.value] else [error2.value, error]
  {
    words, cs := [], [];
    if error2.Some? { words, cs := [Code(error2.value)], [error2.value]; }
    if |words| < room {
      EncodeNext(cs, error);
      words, cs := words + [Code(error)], cs + [error];
    }
  }

  // ---- Parsing -------------------------------------------------------------------------------

  /** How parsing ends: all words used, a word that is no command, or words missing. */
  datatype End = AllUsed | BadWord | Torn

  function OperandCount(w: Word): nat {
    if w == Code(Transaction([])) || w == Code(Reply([])) then TXN_WORDS
    else if w == Code(DeadBinder(0)) then 1
    else if exists k: Kind :: w == KindCode(k) then 2
    else 0
  }

  /** The command with this word and operands; None is one to skip. */
  function Decode(w: Word, args: seq<Word>): Option<Command>
    requires |args| == OperandCount(w)
  {
    if w == Code(Complete) then Some(Complete)
    else if w == Code(FailedReply) then Some(FailedReply)
    else if w == Code(DeadReply) then Some(DeadReply)
    else if w == Code(Transaction([])) then Some(Transaction(args))
    else if w == Code(Reply([])) then Some(Reply(args))
    else if w == Code(DeadBinder(0)) then Some(DeadBinder(args[0]))
    else if w == KindCode(Increfs) then Some(Count(Increfs, args[0], args[1]))
    else if w == KindCode(Acquire) then Some(Count(Acquire, args[0], args[1]))
    else if w == KindCode(Release) then Some(Count(Release, args[0], args[1]))
    else if w == KindCode(Decrefs) then Some(Count(Decrefs, args[0], args[1]))
    else None
  }

  lemma DecodeEncoded(c: Command)
    requires IsCommand(c)
    ensures OperandCount(Code(c)) == |Operands(c)| && Decode(Code(c), Operands(c)) == Some(c)
  {
    if c.Count? { assert Code(c) == KindCode(c.kind); }
  }

  ghost predicate AreCommands(cs: seq<Command>) { forall i :: 0 <= i < |cs| ==> IsCommand(cs[i]) }

  /** binder_parse: a word that is no command is let pass in first place. If `cs` are the
      commands the words encode, they are handled, all of them and in order. */
  method Parse(ws: seq<Word>, ghost cs: seq<Command>) returns (handled: seq<Command>, end: End)
    requires AreCommands(cs)
    ensures ws == Encode(cs) ==> handled == cs && end == AllUsed
    ensures |Encode(handled)| <= |ws| && (ws != [] && ws[0] == SPAWN_LOOPER ==> |Encode(handled)| < |ws|)
  {
    handled, end := [], AllUsed;
    var p := 0;
    ghost var left := cs;
    while p < |ws|
      invariant 0 <= p <= |ws| && |Encode(handled)| <= p
      invariant p > 0 && ws[0] == SPAWN_LOOPER ==> |Encode(handled)| < p
      invariant AreCommands(left) && (ws == Encode(cs) ==> handled + left == cs && ws[p..] == Encode(left))
    {
      var c, n, torn := Fetch(ws, p, left);
      if torn { return handled, Torn; }
      if c.None? && ws[p] != NOOP && p > 0 { return handled, BadWord; }
      if c.Some? {
        EncodeNext(handled, c.value);
        if left != [] { ShiftFirst(handled, left); }
        handled := handled + [c.value];
      }
      p, left := p + 1 + n, if left == [] then [] else left[1..];
    }
    if ws == Encode(cs) { NothingLeft(left); }
  }

  lemma ShiftFirst(done: seq<Command>, left: seq<Command>)
    requires left != []
    ensures (done + [left[0]]) + left[1..] == done + left
  {
  }

  lemma NothingLeft(cs: seq<Command>)
    requires Encode(cs) == []
    ensures cs == []
  {
  }

  /** The command at `p` and the number of its operands. */
  method Fetch(ws: seq<Word>, p: nat, ghost cs: seq<Command>) returns (c: Option<Command>, n: nat, torn: bool)
    requires p < |ws| && AreCommands(cs)
    ensures !torn ==> p + 1 + n <= |ws| && if c.Some? then |Words(c.value)| == 1 + n else n == 0
    ensures ws[p..] == Encode(cs) ==> !torn && cs != [] && c == Some(cs[0]) && ws[p + 1 + n..] == Encode(cs[1..])
    ensures ws[p] == SPAWN_LOOPER ==> c.None? && !torn
  {
    n := OperandCount(ws[p]);
    torn := p + 1 + n > |ws|;
    if ws[p..] == Encode(cs) { StreamHead(ws, p, cs); }
    if torn { return None, n, torn; }
    c := Decode(ws[p], ws[p + 1..p + 1 + n]);
    DecodeSize(ws[p], ws[p + 1..p + 1 + n]);
  }

  lemma DecodeSize(w: Word, args: seq<Word>)
    requires |args| == OperandCount(w)
    ensures match Decode(w, args)
      case Some(c) => |Operands(c)| == |args| && w == Code(c)
      case None => args == []
  {
  }

  /** What is left of a stream starts with the next command. */
  lemma {:induction false} StreamHead(ws: seq<Word>, p: nat, cs: seq<Command>)
    requires p < |ws| && ws[p..] == Encode(cs) && AreCommands(cs)
    ensures var n := OperandCount(ws[p]);
      && cs != [] && p + 1 + n <= |ws|
      && Decode(ws[p], ws[p + 1..p + 1 + n]) == Some(cs[0])
      && ws[p + 1 + n..] == Encode(cs[1..])
  {
    DecodeEncoded(cs[0]);
    var n := |Operands(cs[0])|;
    assert ws[p..][0] == Code(cs[0]);
    assert ws[p + 1..p + 1 + n] == ws[p..][1..1 + n] == Operands(cs[0]);
    assert ws[p + 1 + n..] == ws[p..][1 + n..];
  }

  /** Theorem. The parser handles exactly the commands the read delivered, in order and with
      their operands, if and only if no request for another thread was written over them;
      with a limit of no threads of its own, the service manager is never sent one. */
  method ReadAndParse(error: Option<Command>, error2: Option<Command>, queue: seq<Work>, room: nat, needReturn: bool,
                      spawn: bool)
    returns (handled: Option<seq<Command>>, ghost cs: seq<Command>)
    requires forall i :: 0 <= i < |queue| ==> IsWork(queue[i])
    requires error.Some? ==> IsCode(error.value)
    requires error2.Some? ==> IsCode(error2.value)
    ensures handled.Some? ==> (handled.value == cs <==> !(spawn && cs != []))
    ensures error.None? && handled.Some? && !spawn ==> handled.value <= Pending(queue)
  {
    var out, rest;
    out, rest, cs := ThreadRead(error, error2, queue, room, needReturn, spawn);
    if out.None? { return None, cs; }
    var hs, _ := Parse(out.value, cs);
    handled := Some(hs);
  }
}
