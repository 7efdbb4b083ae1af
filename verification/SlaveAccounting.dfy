/**
  The live and gone counts of a session against its slave records, over registrations, event
  results, reports from the frontend and the sweep at the end of a session, one at a time.
 */
module SlaveAccounting {
  import opened Domain

  /** The slave records of a session by slave id, and its two counters. */
  datatype Book = Book(records: map<string, SlaveState>, live: int, gone: int)

  const NEW_BOOK := Book(map[], 0, 0)

  function Terminals(records: map<string, SlaveState>): set<string> {
    set s <- records | IsTerminal(records[s].status)
  }

  function NonTerminals(records: map<string, SlaveState>): set<string> {
    set s <- records | !IsTerminal(records[s].status)
  }

  /** The counters say what the records say. */
  predicate Balanced(b: Book) {
    b.live == |NonTerminals(b.records)| && b.gone == |Terminals(b.records)|
  }

  /** In so many words: the live ones are neither terminating nor gone, the others are gone. */
  lemma BalancedMeans(b: Book)
    ensures Balanced(b) <==>
              && b.live == |set s <- b.records | !b.records[s].status.Terminating? && !b.records[s].status.Gone?|
              && b.gone == |set s <- b.records | b.records[s].status.Terminating? || b.records[s].status.Gone?|
  {
    assert NonTerminals(b.records) ==
           set s <- b.records | !b.records[s].status.Terminating? && !b.records[s].status.Gone?;
    assert Terminals(b.records) == set s <- b.records | b.records[s].status.Terminating? || b.records[s].status.Gone?;
  }

  /** The counters after a slave went from `previous` to `current`, with the clamp at zero. */
  function CountChange(b: Book, previous: SlaveStatus, current: SlaveStatus): Book {
    if IsTerminal(previous) || !IsTerminal(current) then b
    else b.(live := if b.live > 0 then b.live - 1 else b.live, gone := b.gone + 1)
  }

  /** Publish a record, then count. */
  function Observe(b: Book, previous: SlaveState, current: SlaveState): Book {
    CountChange(b.(records := b.records[current.slaveID := current]), previous.status, current.status)
  }

  function Register(b: Book, state: SlaveState): Book {
    Book(b.records[state.slaveID := state], b.live + 1, b.gone)
  }

  function Report(b: Book, slaveID: string, reason: DeathReason): Book {
    if slaveID in b.records
    then Observe(b, b.records[slaveID], b.records[slaveID].(status := Gone, deathReason := reason))
    else b
  }

  function SweepRecords(records: map<string, SlaveState>): map<string, SlaveState> {
    map s <- records :: records[s].(status := Gone, deathReason := ProcessDown)
  }

  function Sweep(b: Book): Book {
    Book(SweepRecords(b.records), 0, |b.records|)
  }

  // ---------------------------------------------------------------- one operation

  lemma PartsCover(records: map<string, SlaveState>)
    ensures |Terminals(records)| + |NonTerminals(records)| == |records|
  {
    assert Terminals(records) + NonTerminals(records) == records.Keys;
    assert Terminals(records) !! NonTerminals(records);
  }

  /** What replacing or adding one record does to the two parts. */
  lemma PartsAfter(records: map<string, SlaveState>, s: string, state: SlaveState)
    ensures var after := records[s := state];
            if IsTerminal(state.status) then
              Terminals(after) == Terminals(records) + {s} && NonTerminals(after) == NonTerminals(records) - {s}
            else
              Terminals(after) == Terminals(records) - {s} && NonTerminals(after) == NonTerminals(records) + {s}
  {
  }

  predicate HasTerminal(records: map<string, SlaveState>, s: string) {
    s in records && IsTerminal(records[s].status)
  }

  predicate HasNonTerminal(records: map<string, SlaveState>, s: string) {
    s in records && !IsTerminal(records[s].status)
  }

  lemma CountsAfter(records: map<string, SlaveState>, s: string, state: SlaveState)
    ensures var after := records[s := state];
            && |Terminals(after)| == |Terminals(records)|
                 - (if HasTerminal(records, s) then 1 else 0) + (if IsTerminal(state.status) then 1 else 0)
            && |NonTerminals(after)| == |NonTerminals(records)|
                 - (if HasNonTerminal(records, s) then 1 else 0) + (if IsTerminal(state.status) then 0 else 1)
  {
    PartsAfter(records, s, state);
    SizeWith(Terminals(records), s);
    SizeWith(NonTerminals(records), s);
    assert s in Terminals(records) <==> HasTerminal(records, s);
    assert s in NonTerminals(records) <==> HasNonTerminal(records, s);
  }

  lemma SizeWith<T>(all: set<T>, x: T)
    ensures |all + {x}| == if x in all then |all| else |all| + 1
    ensures |all - {x}| == if x in all then |all| - 1 else |all|
  {
    if x in all {
      assert all + {x} == all;
    } else {
      assert all - {x} == all;
    }
  }

  lemma RegisterBalances(b: Book, state: SlaveState)
    requires Balanced(b) && state.slaveID !in b.records && state.status == Live
    ensures Balanced(Register(b, state))
  {
    CountsAfter(b.records, state.slaveID, state);
  }

  /** When a non-terminal record is about to be counted out, there is a live slave to subtract. */
  lemma ClampNeverFires(b: Book, s: string)
    requires Balanced(b) && s in b.records && !IsTerminal(b.records[s].status)
    ensures b.live > 0
  {
    assert s in NonTerminals(b.records);
  }

  /**
    An event result keeps the balance if and only if it overwrites a record of the session, and
    that record agrees with the resolved one on being terminal when the reply is terminal, and is
    not terminal when the reply is not.
   */
  predicate KeepsBalance(b: Book, previous: SlaveState, reply: SlaveState) {
    && reply.slaveID in b.records
    && var old_ := b.records[reply.slaveID].status;
       if IsTerminal(reply.status) then IsTerminal(old_) == IsTerminal(previous.status) else !IsTerminal(old_)
  }

  lemma EventBalanceExact(b: Book, target: string, reply: SlaveState)
    requires Balanced(b) && target in b.records
    ensures Balanced(Observe(b, b.records[target], reply)) <==> KeepsBalance(b, b.records[target], reply)
  {
    CountsAfter(b.records, reply.slaveID, reply);
    if !IsTerminal(b.records[target].status) {
      ClampNeverFires(b, target);
    }
  }

  /** For a reply that names the resolved slave: it must not bring a terminal record back. */
  lemma NamedReplyExact(b: Book, target: string, reply: SlaveState)
    requires Balanced(b) && target in b.records && reply.slaveID == target
    ensures Balanced(Observe(b, b.records[target], reply))
            <==> (IsTerminal(b.records[target].status) ==> IsTerminal(reply.status))
  {
    EventBalanceExact(b, target, reply);
  }

  /** Every record is filed under its own slave id. */
  predicate Filed(b: Book) {
    forall s <- b.records :: b.records[s].slaveID == s
  }

  lemma RecordsAfter(b: Book, previous: SlaveState, state: SlaveState)
    ensures Register(b, state).records.Keys == b.records.Keys + {state.slaveID}
    ensures Observe(b, previous, state).records.Keys == b.records.Keys + {state.slaveID}
  {
  }

  lemma ReportBalances(b: Book, slaveID: string, reason: DeathReason)
    requires Balanced(b) && Filed(b)
    ensures Balanced(Report(b, slaveID, reason)) && Filed(Report(b, slaveID, reason))
    ensures Report(b, slaveID, reason).records.Keys == b.records.Keys
  {
    if slaveID in b.records {
      EventBalanceExact(b, slaveID, b.records[slaveID].(status := Gone, deathReason := reason));
    }
  }

  lemma SweepBalances(b: Book)
    ensures Balanced(Sweep(b)) && Sweep(b).records.Keys == b.records.Keys
  {
    assert Terminals(Sweep(b).records) == b.records.Keys;
    assert NonTerminals(Sweep(b).records) == {};
  }

  // ---------------------------------------------------------------- whole runs

  datatype Op =
    | RegisterOp(state: SlaveState)
    | EventOp(target: string, reply: SlaveState)
    | ReportOp(slaveID: string, reason: DeathReason)
    | SweepOp

  /** A fresh slave id; a reply that names the resolved slave and does not bring it back to life. */
  predicate Fair(b: Book, op: Op) {
    match op
    case RegisterOp(state) => state.slaveID !in b.records && state.status == Live
    case EventOp(target, reply) =>
      && target in b.records && reply.slaveID == target
      && (IsTerminal(b.records[target].status) ==> IsTerminal(reply.status))
    case _ => true
  }

  function Apply(b: Book, op: Op): Book
    requires Fair(b, op)
  {
    match op
    case RegisterOp(state) => Register(b, state)
    case EventOp(target, reply) => Observe(b, b.records[target], reply)
    case ReportOp(slaveID, reason) => Report(b, slaveID, reason)
    case SweepOp => Sweep(b)
  }

  predicate FairRun(b: Book, ops: seq<Op>)
    decreases |ops|
  {
    ops == [] || (Fair(b, ops[0]) && FairRun(Apply(b, ops[0]), ops[1..]))
  }

  function Run(b: Book, ops: seq<Op>): Book
    requires FairRun(b, ops)
    decreases |ops|
  {
    if ops == [] then b else Run(Apply(b, ops[0]), ops[1..])
  }

  function Registrations(ops: seq<Op>): nat {
    if ops == [] then 0 else (if ops[0].RegisterOp? then 1 else 0) + Registrations(ops[1..])
  }

  lemma ApplyBalances(b: Book, op: Op)
    requires Balanced(b) && Filed(b) && Fair(b, op)
    ensures Balanced(Apply(b, op)) && Filed(Apply(b, op))
    ensures |Apply(b, op).records| == |b.records| + Registrations([op])
    ensures op.EventOp? && !IsTerminal(b.records[op.target].status) ==> b.live > 0
    ensures op.ReportOp? && HasNonTerminal(b.records, op.slaveID) ==> b.live > 0
  {
    match op {
      case RegisterOp(state) =>
        RegisterBalances(b, state);
        assert Apply(b, op).records.Keys == b.records.Keys + {state.slaveID};
      case EventOp(target, reply) =>
        EventBalanceExact(b, target, reply);
        assert Apply(b, op).records.Keys == b.records.Keys;
        if !IsTerminal(b.records[target].status) {
          ClampNeverFires(b, target);
        }
      case ReportOp(slaveID, reason) =>
        ReportBalances(b, slaveID, reason);
        if HasNonTerminal(b.records, slaveID) {
          ClampNeverFires(b, slaveID);
        }
      case SweepOp =>
        SweepBalances(b);
    }
    assert |Apply(b, op).records| == |Apply(b, op).records.Keys| && |b.records| == |b.records.Keys|;
  }

  /** After any run the counters say what the records say, and add up to the registrations. */
  lemma {:induction false} RunBalances(b: Book, ops: seq<Op>)
    requires Balanced(b) && Filed(b) && FairRun(b, ops)
    ensures Balanced(Run(b, ops)) && Filed(Run(b, ops))
    ensures Run(b, ops).live + Run(b, ops).gone == |b.records| + Registrations(ops)
    decreases |ops|
  {
    if ops == [] {
      PartsCover(b.records);
    } else {
      ApplyBalances(b, ops[0]);
      RunBalances(Apply(b, ops[0]), ops[1..]);
      assert Registrations([ops[0]]) + Registrations(ops[1..]) == Registrations(ops);
    }
  }

  /** From the creation of a session on, live plus gone is the number of registrations. */
  lemma SessionBalances(ops: seq<Op>)
    requires FairRun(NEW_BOOK, ops)
    ensures Balanced(Run(NEW_BOOK, ops))
    ensures Run(NEW_BOOK, ops).live + Run(NEW_BOOK, ops).gone == Registrations(ops)
    ensures var b := Run(NEW_BOOK, ops);
            && b.live == |set s <- b.records | !b.records[s].status.Terminating? && !b.records[s].status.Gone?|
            && b.gone == |set s <- b.records | b.records[s].status.Terminating? || b.records[s].status.Gone?|
  {
    BalancedMeans(Run(NEW_BOOK, ops));
    assert Terminals(NEW_BOOK.records) == {} && NonTerminals(NEW_BOOK.records) == {};
    RunBalances(NEW_BOOK, ops);
  }

  /**
    The code does not exclude a revival: the frontend reports a pod gone, and an event addressed to
    it reaches the slave before the shutdown does, so the reply still says live.
   */
  lemma RevivalUnbalances(state: SlaveState, reason: DeathReason)
    requires state.status == Live
    ensures var b := Report(Register(NEW_BOOK, state), state.slaveID, reason);
            Balanced(b) && !Balanced(Observe(b, b.records[state.slaveID], state))
  {
    SessionBalances([]);
    RegisterBalances(NEW_BOOK, state);
    var b := Register(NEW_BOOK, state);
    ReportBalances(b, state.slaveID, reason);
    NamedReplyExact(Report(b, state.slaveID, reason), state.slaveID, state);
  }

  /**
    Nor does it exclude a reply without an id: until a slave has learnt the id it was registered
    under, it answers with an empty one, and its reply is filed as a record that nobody counted.
   */
  lemma UnnamedReplyUnbalances(state: SlaveState, reply: SlaveState)
    requires state.status == Live && state.slaveID != "" && reply.slaveID == ""
    ensures var b := Register(NEW_BOOK, state);
            Balanced(b) && !Balanced(Observe(b, b.records[state.slaveID], reply))
  {
    SessionBalances([]);
    RegisterBalances(NEW_BOOK, state);
    EventBalanceExact(Register(NEW_BOOK, state), state.slaveID, reply);
  }

  /**
    Nor one that names another slave of the session: once the address of a live pod's record belongs to
    that slave, which has been reported gone, any reply is filed over its record and miscounted.
   */
  lemma MisnamedReplyUnbalances(state: SlaveState, other: SlaveState, reason: DeathReason, reply: SlaveState)
    requires state.status == other.status == Live && reply.slaveID == other.slaveID != state.slaveID
    ensures var b := Report(Register(Register(NEW_BOOK, state), other), other.slaveID, reason);
            Balanced(b) && !Balanced(Observe(b, b.records[state.slaveID], reply))
  {
    SessionBalances([]);
    RegisterBalances(NEW_BOOK, state);
    var one := Register(NEW_BOOK, state);
    RegisterBalances(one, other);
    var two := Register(one, other);
    ReportBalances(two, other.slaveID, reason);
    EventBalanceExact(Report(two, other.slaveID, reason), state.slaveID, reply);
  }
}
