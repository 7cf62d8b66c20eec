// A run that ends in a self-targeted call: thread 0 calls a node of process 1, the
// thread serving it calls back into process 0, and thread 0, serving that, calls a node
// of its own process. The driver hands this last call to thread 0 itself, whose next reply
// then finds a bad target stack.
module SelfTargetedRun {
  import opened Base
  import opened Transactions
  import opened TransactionSafety
  import TransactionTheorems

  const SETUP: seq<Op> := [AddThread(0, 0), AddThread(1, 1), AddNode(0, 1), AddNode(1, 0)]
  const CALLS: seq<Op> :=
    [Send(0, ToNode(0), false, false), Read(1), Send(1, ToNode(1), false, false), Read(0), Read(0)]
  const OWN_CALL := Send(0, ToNode(1), false, false)

  lemma {:induction false} RunAppend(s: State, a: seq<Op>, b: seq<Op>)
    ensures Run(s, a + b) == Run(Run(s, a), b)
    ensures Fair(s, a + b) <==> Fair(s, a) && Fair(Run(s, a), b)
    decreases |a|
  {
    if a == [] {
      assert a + b == b;
    } else {
      assert (a + b)[1..] == a[1..] + b;
      RunAppend(Step(s, a[0]).0, a[1..], b);
    }
  }

  lemma {:induction false} One(s: State, op: Op)
    ensures Run(s, [op]) == Step(s, op).0 && (Fair(s, [op]) <==> !SelfTargeted(s, op))
  {
    assert [op][1..] == [];
  }

  lemma {:induction false} Setup()
    ensures var s := Run(EMPTY, SETUP);
      Fair(EMPTY, SETUP) && s == START
  {
    var s1 := Step(EMPTY, SETUP[0]).0;
    var s2 := Step(s1, SETUP[1]).0;
    var s3 := Step(s2, SETUP[2]).0;
    var s4 := Step(s3, SETUP[3]).0;
    assert SETUP == [SETUP[0]] + ([SETUP[1]] + ([SETUP[2]] + [SETUP[3]]));
    One(EMPTY, SETUP[0]); One(s1, SETUP[1]); One(s2, SETUP[2]); One(s3, SETUP[3]);
    RunAppend(s2, [SETUP[2]], [SETUP[3]]);
    RunAppend(s1, [SETUP[1]], [SETUP[2]] + [SETUP[3]]);
    RunAppend(EMPTY, [SETUP[0]], [SETUP[1]] + ([SETUP[2]] + [SETUP[3]]));
  }

  const START := EMPTY.(threads := map[0 := Thread(0, None, BrOk, BrOk), 1 := Thread(1, None, BrOk, BrOk)],
                        nodes := map[0 := Node(1, false), 1 := Node(0, false)])

  /** Thread 0 waits for transaction 1, which thread 1 is serving. */
  predicate FirstServed(s: State) {
    && s.lastId == 1 && s.nodes == START.nodes && 1 in s.txns && 1 in s.buffers
    && s.txns[1] == Txn(Some(0), None, Some(1), None, Some(0), false, None, true)
    && s.threads == map[0 := Thread(0, Some(1), BrOk, BrOk), 1 := Thread(1, Some(1), BrOk, BrOk)]
    && At(s.lists, ThreadTodo(0)) == [TransactionComplete]
  }

  lemma {:induction false} FirstCall()
    ensures Fair(START, CALLS[..2]) && FirstServed(Run(START, CALLS[..2]))
  {
    var s1 := Step(START, CALLS[0]).0;
    assert CALLS[..2] == [CALLS[0]] + [CALLS[1]];
    One(START, CALLS[0]); One(s1, CALLS[1]);
    RunAppend(START, [CALLS[0]], [CALLS[1]]);
    assert At(s1.lists, ProcTodo(1)) == [Deliver(1)];
    assert At(s1.lists, ThreadTodo(1)) == [];
    assert s1.threads[1].stack == None;
  }

  lemma {:induction false} CallBack(s: State)
    requires FirstServed(s)
    ensures Fair(s, CALLS[2..])
    ensures var s' := Run(s, CALLS[2..]);
      && s'.nodes == START.nodes && 0 in s'.threads && s'.threads[0] == Thread(0, Some(2), BrOk, BrOk)
      && 1 in s'.txns && s'.txns[1] == s.txns[1]
      && 2 in s'.txns && s'.txns[2] == Txn(Some(1), Some(1), Some(0), Some(1), Some(1), false, None, true)
  {
    var s1 := Step(s, CALLS[2]).0;
    var s2 := Step(s1, CALLS[3]).0;
    assert CALLS[2..] == [CALLS[2]] + ([CALLS[3]] + [CALLS[4]]);
    One(s, CALLS[2]); One(s1, CALLS[3]); One(s2, CALLS[4]);
    RunAppend(s1, [CALLS[3]], [CALLS[4]]);
    RunAppend(s, [CALLS[2]], [CALLS[3]] + [CALLS[4]]);
    assert OutermostCaller(s.threads, s.txns, 1, 0) == Some(0);
    assert At(s1.lists, ThreadTodo(0)) == [TransactionComplete, Deliver(2)];
    assert At(s2.lists, ThreadTodo(0)) == [Deliver(2)];
  }

  /** Theorem. A run in which nothing was self-targeted before can reach a state where the
      next call is, the driver lets it through, and the reply after it fails. */
  lemma {:induction false} SelfTargetedHappens()
    ensures var s := Run(EMPTY, SETUP + CALLS);
      && Fair(EMPTY, SETUP + CALLS) && SelfTargeted(s, OWN_CALL) && Step(s, OWN_CALL).1.Called?
      && Run(EMPTY, SETUP + CALLS + [OWN_CALL]) == Step(s, OWN_CALL).0
      && Step(Run(EMPTY, SETUP + CALLS + [OWN_CALL]), Reply(0, false)).1 == BadTargetStack
  {
    OwnCall();
    var s := Run(EMPTY, SETUP + CALLS);
    TransactionTheorems.EmptyInv();
    TransactionTheorems.RunSafe(EMPTY, SETUP + CALLS);
    TransactionTheorems.SelfTargetedExactly(s, OWN_CALL, false);
    One(s, OWN_CALL);
    RunAppend(EMPTY, SETUP + CALLS, [OWN_CALL]);
  }

  lemma {:induction false} OwnCall()
    ensures var s := Run(EMPTY, SETUP + CALLS);
      Fair(EMPTY, SETUP + CALLS) && SelfTargeted(s, OWN_CALL) && Step(s, OWN_CALL).1.Called?
  {
    Setup();
    RunAppend(EMPTY, SETUP, CALLS);
    FirstCall();
    var s := Run(START, CALLS[..2]);
    CallBack(s);
    RunAppend(START, CALLS[..2], CALLS[2..]);
    assert CALLS == CALLS[..2] + CALLS[2..];
    var s' := Run(s, CALLS[2..]);
    assert OutermostCaller(s'.threads, s'.txns, 1, 0) == Some(0);
    assert OutermostCaller(s'.threads, s'.txns, 2, 0) == Some(0);
  }
}
