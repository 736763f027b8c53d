/** pg/runner.go: when runners with any lists, in any interleaving, apply migrations in version order. */
module MigrationOrder {
  import opened Migrations

  predicate InVersionOrder(list: seq<Migration>) {
    forall i, j :: 0 <= i < j < |list| ==> list[i].version < list[j].version
  }

  // ----- Which runners can commit anything -----

  /** A waiver needs a reason; without one there must be a gate to ask. */
  predicate CanPass(o: Options) {
    if o.waive then o.reason != "" else o.gatePresent
  }

  /** That is exactly when some answer of the gate, at some time, lets the run go on. */
  lemma CanPassExactly(o: Options)
    ensures CanPass(o) <==> exists reply, now :: GateDecision(o, reply, now).Some?
  {
    if CanPass(o) {
      var reply, now := GateAnswer(o);
    }
  }

  lemma GateAnswer(o: Options) returns (reply: GateReply, now: int)
    requires CanPass(o)
    ensures GateDecision(o, reply, now).Some?
  {
    var receipt := Receipt(1, seq(64, _ => '0'));
    reply, now := Verified(receipt), 1;
    assert Elapsed(1, 1) == 0;
  }

  /** Its list is valid and agrees with the ledger, and its gate can be passed. */
  predicate Able(p: Process, ledger: map<int, Row>) {
    ValidList(p.list) && !Drifted(p.list, ledger) && CanPass(p.options)
  }

  // ----- The condition -----

  /** Below this version the two lists give the same name to whatever both hold and the ledger lacks. */
  predicate Agree(a: seq<Migration>, b: seq<Migration>, below: int, ledger: map<int, Row>) {
    forall x, y :: x in a && y in b && x.version == y.version < below && x.version !in ledger ==> x.name == y.name
  }

  predicate Holds(list: seq<Migration>, version: int) {
    exists m :: m in list && m.version == version
  }

  /** Whatever a runner that can commit still lacks is above all that is recorded. */
  predicate AboveRecorded(sys: System) {
    forall p, m, v :: p in sys.processes && Able(sys.processes[p], sys.db.ledger) && m in sys.processes[p].list ==>
      m.version !in sys.db.ledger && v in sys.db.ledger ==> v < m.version
  }

  /** `q` could commit its `n` while `p` still has its `m` before it. */
  predicate Overtakes(sys: System, p: nat, m: Migration, q: nat, n: Migration)
    requires p in sys.processes && q in sys.processes
  {
    var a, b, ledger := sys.processes[p], sys.processes[q], sys.db.ledger;
    && Able(a, ledger) && Able(b, ledger) && m in a.list && n in b.list
    && m.version !in ledger && n.version !in ledger && m.version < n.version
    && Agree(a.list, b.list, m.version, ledger) && !Holds(b.list, m.version)
  }

  ghost predicate NobodyOvertakes(sys: System) {
    forall p, m, q, n :: p in sys.processes && q in sys.processes ==> !Overtakes(sys, p, m, q, n)
  }

  predicate Start(sys: System) {
    && EachOnce(sys.db) && InVersionOrder(sys.db.executed)
    && forall id :: id in sys.processes ==> sys.processes[id].state.Waiting?
  }

  // ----- The condition keeps the order -----

  predicate Recorded(x: Migration, ledger: map<int, Row>) {
    x.version in ledger && ledger[x.version].name == x.name
  }

  /** Everything of the list below this version is recorded as the list has it. */
  predicate Behind(list: seq<Migration>, version: int, ledger: map<int, Row>) {
    forall x :: x in list && x.version < version ==> Recorded(x, ledger)
  }

  /** What a runner that has read the ledger knows of its list. */
  predicate Knows(list: seq<Migration>, pending: seq<Migration>, next: nat, ledger: map<int, Row>) {
    && next < |pending| && InVersionOrder(pending)
    && (forall k :: 0 <= k < |pending| ==> pending[k] in list)
    && (forall x :: x in list ==> x in pending || Recorded(x, ledger))
    && (forall k :: 0 <= k < next ==> Recorded(pending[k], ledger))
  }

  predicate RunnerKnows(p: Process, start: map<int, Row>, ledger: map<int, Row>) {
    match p.state
    case Validated => ValidList(p.list)
    case Gating(pending) =>
      ValidList(p.list) && !Drifted(p.list, start) && Knows(p.list, pending, 0, ledger)
    case Applying(pending, next, _) => Able(p, start) && Knows(p.list, pending, next, ledger)
    case _ => true
  }

  /** Who committed this version had recorded all of its own list below it. */
  ghost predicate Authored(v: int, sys: System, ledger: map<int, Row>) {
    exists id :: id in sys.processes && Able(sys.processes[id], sys.db.ledger)
      && Holds(sys.processes[id].list, v) && Behind(sys.processes[id].list, v, ledger)
  }

  ghost predicate OrderInv(sys: System, now: System) {
    && EachOnce(now.db) && InVersionOrder(now.db.executed)
    && Grown(sys.db.ledger, now.db.ledger) && now.processes.Keys == sys.processes.Keys
    && (forall id :: id in now.processes ==>
          && now.processes[id].list == sys.processes[id].list && now.processes[id].options == sys.processes[id].options
          && RunnerKnows(now.processes[id], sys.db.ledger, now.db.ledger))
    && (forall v :: v in now.db.ledger && v !in sys.db.ledger ==> Authored(v, sys, now.db.ledger))
  }

  /** Rows are never removed or changed. */
  predicate Grown(ledger: map<int, Row>, later: map<int, Row>) {
    forall v :: v in ledger ==> v in later && later[v] == ledger[v]
  }

  lemma BehindNext(list: seq<Migration>, pending: seq<Migration>, next: nat, ledger: map<int, Row>)
    requires Knows(list, pending, next, ledger)
    ensures Behind(list, pending[next].version, ledger)
  {
    forall x | x in list && x.version < pending[next].version ensures Recorded(x, ledger) {
      if x in pending {
        var k :| 0 <= k < |pending| && pending[k] == x;
      }
    }
  }

  /** Two runners that have come this far agree so far, and the second never held the first one's next. */
  lemma BothBehind(a: seq<Migration>, b: seq<Migration>, next: int, r: int, start: map<int, Row>, ledger: map<int, Row>)
    requires Behind(a, next, ledger) && Behind(b, r, ledger) && next < r && next !in ledger
    ensures Agree(a, b, next, start) && !Holds(b, next)
  {
    forall x, y | x in a && y in b && x.version == y.version < next ensures x.name == y.name {
      assert Recorded(x, ledger) && Recorded(y, ledger);
    }
    forall x | x in b && x.version < r ensures x.version != next {
      assert Recorded(x, ledger);
    }
  }

  lemma AuthorOvertook(sys: System, now: System, id: nat, r: int) returns (q: nat, n: Migration)
    requires OrderInv(sys, now) && id in now.processes && now.processes[id].state.Applying?
    requires var s := now.processes[id].state; s.pending[s.next].version !in now.db.ledger
    requires r in now.db.ledger && r !in sys.db.ledger
    requires var s := now.processes[id].state; s.pending[s.next].version < r
    ensures q in sys.processes
    ensures var s := now.processes[id].state; Overtakes(sys, id, s.pending[s.next], q, n)
  {
    var p := now.processes[id];
    var m := p.state.pending[p.state.next];
    BehindNext(p.list, p.state.pending, p.state.next, now.db.ledger);
    q :| q in sys.processes && Able(sys.processes[q], sys.db.ledger)
      && Holds(sys.processes[q].list, r) && Behind(sys.processes[q].list, r, now.db.ledger);
    n :| n in sys.processes[q].list && n.version == r;
    BothBehind(p.list, sys.processes[q].list, m.version, r, sys.db.ledger, now.db.ledger);
  }

  /** The version about to be committed is above all that is recorded. */
  lemma NextIsAbove(sys: System, now: System, id: nat, r: int)
    requires OrderInv(sys, now) && AboveRecorded(sys) && NobodyOvertakes(sys)
    requires id in now.processes && now.processes[id].state.Applying? && r in now.db.ledger
    requires var s := now.processes[id].state; s.pending[s.next].version !in now.db.ledger
    ensures var s := now.processes[id].state; r < s.pending[s.next].version
  {
    var s := now.processes[id].state;
    if r !in sys.db.ledger && s.pending[s.next].version < r {
      var q, n := AuthorOvertook(sys, now, id, r);
    }
  }

  lemma ReadKnows(p: Process, start: map<int, Row>, ledger: map<int, Row>)
    requires ValidList(p.list) && Grown(start, ledger)
    ensures RunnerKnows(p.(state := AfterRead(p, ledger)), start, ledger)
  {
    PendingIsFresh(p.list, ledger);
    PendingExactly(p.list, ledger);
    if !Drifted(p.list, ledger) {
      forall m | m in p.list && m.version in start ensures start[m.version].name == m.name {
        assert ledger[m.version] == start[m.version];
      }
    }
  }

  lemma {:induction false} PendingExactly(list: seq<Migration>, ledger: map<int, Row>)
    ensures forall m :: m in Pending(list, ledger) <==> m in list && m.version !in ledger
  {
    if list != [] {
      PendingExactly(list[1..], ledger);
      assert list == [list[0]] + list[1..];
    }
  }

  lemma KnowsLater(p: Process, start: map<int, Row>, ledger: map<int, Row>, later: map<int, Row>)
    requires RunnerKnows(p, start, ledger) && Grown(ledger, later)
    ensures RunnerKnows(p, start, later)
  {
  }

  lemma AuthoredLater(v: int, sys: System, ledger: map<int, Row>, later: map<int, Row>)
    requires Authored(v, sys, ledger) && Grown(ledger, later)
    ensures Authored(v, sys, later)
  {
    var id :| id in sys.processes && Able(sys.processes[id], sys.db.ledger)
      && Holds(sys.processes[id].list, v) && Behind(sys.processes[id].list, v, ledger);
    assert Behind(sys.processes[id].list, v, later);
  }

  lemma CommitKeepsOrder(db: Database, m: Migration, row: Row, effect: Effect)
    requires EachOnce(db) && InVersionOrder(db.executed) && m.version !in db.ledger && row.name == m.name
    requires forall r :: r in db.ledger ==> r < m.version
    ensures EachOnce(Commit(db, m, row, effect)) && InVersionOrder(Commit(db, m, row, effect).executed)
    ensures Grown(db.ledger, Commit(db, m, row, effect).ledger)
  {
    CommitEachOnce(db, m, row, effect);
    HighestLast(db.executed, m, db.ledger);
  }

  lemma HighestLast(executed: seq<Migration>, m: Migration, ledger: map<int, Row>)
    requires InVersionOrder(executed) && (forall x :: x in executed ==> x.version in ledger)
    requires forall r :: r in ledger ==> r < m.version
    ensures InVersionOrder(executed + [m])
  {
    forall i | 0 <= i < |executed| ensures executed[i].version < m.version {
      assert executed[i] in executed;
    }
  }

  /** The runner that takes a step knows as much of its list afterwards. */
  lemma ActorKnows(sys: System, now: System, e: Event)
    requires OrderInv(sys, now) && e.id in now.processes && Enabled(now.processes[e.id].state, e.action)
    requires Grown(now.db.ledger, Step(now, e).db.ledger)
    ensures RunnerKnows(Step(now, e).processes[e.id], sys.db.ledger, Step(now, e).db.ledger)
  {
    var p := now.processes[e.id];
    match e.action
    case ReadLedger(readable) => ReadKnows(p, sys.db.ledger, now.db.ledger);
    case Gate(reply, at) => GateKnows(p, reply, at, sys.db.ledger, now.db.ledger);
    case Transact(reply, at) =>
      KnowsLater(p, sys.db.ledger, now.db.ledger, Step(now, e).db.ledger);
      TransactKnows(p, reply, sys.db.ledger, now.db, Step(now, e).db);
    case _ =>
  }

  lemma GateKnows(p: Process, reply: GateReply, at: int, start: map<int, Row>, ledger: map<int, Row>)
    requires p.state.Gating? && RunnerKnows(p, start, ledger)
    ensures GateDecision(p.options, reply, at).Some? ==>
      RunnerKnows(p.(state := Applying(p.state.pending, 0, GateDecision(p.options, reply, at).value)), start, ledger)
  {
    CanPassExactly(p.options);
  }

  lemma TransactKnows(p: Process, reply: TxReply, start: map<int, Row>, before: Database, after: Database)
    requires p.state.Applying? && RunnerKnows(p, start, after.ledger)
    requires var m := p.state.pending[p.state.next];
      m.version in before.ledger || (reply.Committed? ==> Recorded(m, after.ledger))
    ensures var taken := p.state.pending[p.state.next].version in before.ledger;
      RunnerKnows(p.(state := AfterTransaction(p.state, taken, reply)), start, after.ledger)
  {
  }

  /** A commit keeps the database in order, and its author has recorded all it holds below. */
  lemma CommitIsAuthored(sys: System, now: System, e: Event)
    requires OrderInv(sys, now) && AboveRecorded(sys) && NobodyOvertakes(sys)
    requires e.id in now.processes && Enabled(now.processes[e.id].state, e.action) && Step(now, e).db != now.db
    ensures var after := Step(now, e).db;
      EachOnce(after) && InVersionOrder(after.executed) && Grown(now.db.ledger, after.ledger)
    ensures forall v :: v in Step(now, e).db.ledger && v !in now.db.ledger ==> Authored(v, sys, Step(now, e).db.ledger)
  {
    var p, after := now.processes[e.id], Step(now, e);
    var m := p.state.pending[p.state.next];
    forall r | r in now.db.ledger ensures r < m.version {
      NextIsAbove(sys, now, e.id, r);
    }
    CommitKeepsOrder(now.db, m, RowFor(p, e.action.now), now.effect);
    BehindNext(p.list, p.state.pending, p.state.next, now.db.ledger);
    assert Behind(sys.processes[e.id].list, m.version, after.db.ledger);
    assert Authored(m.version, sys, after.db.ledger);
  }

  lemma AllStillKnow(sys: System, now: System, e: Event)
    requires OrderInv(sys, now) && e.id in now.processes && Enabled(now.processes[e.id].state, e.action)
    requires Grown(now.db.ledger, Step(now, e).db.ledger)
    ensures var after := Step(now, e);
      forall id :: id in after.processes ==> RunnerKnows(after.processes[id], sys.db.ledger, after.db.ledger)
  {
    var after := Step(now, e);
    ActorKnows(sys, now, e);
    forall id | id in after.processes && id != e.id
      ensures RunnerKnows(after.processes[id], sys.db.ledger, after.db.ledger)
    {
      KnowsLater(now.processes[id], sys.db.ledger, now.db.ledger, after.db.ledger);
    }
  }

  lemma AllStillAuthored(sys: System, now: System, later: map<int, Row>)
    requires OrderInv(sys, now) && Grown(now.db.ledger, later)
    requires forall v :: v in later && v !in now.db.ledger ==> Authored(v, sys, later)
    ensures forall v :: v in later && v !in sys.db.ledger ==> Authored(v, sys, later)
  {
    forall v | v in now.db.ledger && v !in sys.db.ledger ensures Authored(v, sys, later) {
      AuthoredLater(v, sys, now.db.ledger, later);
    }
  }

  lemma StepKeepsOrder(sys: System, now: System, e: Event)
    requires OrderInv(sys, now) && AboveRecorded(sys) && NobodyOvertakes(sys)
    ensures OrderInv(sys, Step(now, e))
  {
    if e.id in now.processes && Enabled(now.processes[e.id].state, e.action) {
      if Step(now, e).db != now.db {
        CommitIsAuthored(sys, now, e);
      }
      AllStillKnow(sys, now, e);
      AllStillAuthored(sys, now, Step(now, e).db.ledger);
      SameRunners(now, e);
    }
  }

  /** A step changes the state of one runner, not its list or its options. */
  lemma SameRunners(now: System, e: Event)
    ensures Step(now, e).processes.Keys == now.processes.Keys
    ensures forall id :: id in now.processes ==>
      && Step(now, e).processes[id].list == now.processes[id].list
      && Step(now, e).processes[id].options == now.processes[id].options
  {
  }

  lemma {:induction false} RunKeepsOrder(sys: System, trace: seq<Event>)
    requires Start(sys) && AboveRecorded(sys) && NobodyOvertakes(sys)
    ensures OrderInv(sys, Run(sys, trace))
  {
    if trace != [] {
      RunKeepsOrder(sys, trace[..|trace| - 1]);
      StepKeepsOrder(sys, Run(sys, trace[..|trace| - 1]), trace[|trace| - 1]);
    }
  }

  // ----- Without the condition the order can be lost -----

  /** A runner left alone up to the point where it starts to apply. */
  lemma StartsApplying(sys: System, trace: seq<Event>, id: nat) returns (longer: seq<Event>)
    requires var at := Run(sys, trace);
      && id in at.processes && at.processes[id].state.Waiting? && Able(at.processes[id], at.db.ledger)
      && Pending(at.processes[id].list, at.db.ledger) != []
    ensures var at, after := Run(sys, trace), Run(sys, longer);
      && after.db == at.db && after.processes.Keys == at.processes.Keys
      && (forall other :: other in at.processes && other != id ==> after.processes[other] == at.processes[other])
      && after.processes[id].state.Applying? && after.processes[id].state.next == 0
      && after.processes[id].state.pending == Pending(at.processes[id].list, at.db.ledger)
  {
    var reply, now := GateAnswer(Run(sys, trace).processes[id].options);
    var t1 := trace + [Event(id, Validate)];
    RunSnoc(sys, trace, Event(id, Validate));
    var t2 := t1 + [Event(id, ReadLedger(true))];
    RunSnoc(sys, t1, Event(id, ReadLedger(true)));
    longer := t2 + [Event(id, Gate(reply, now))];
    RunSnoc(sys, t2, Event(id, Gate(reply, now)));
  }

  /** What is recorded was executed, under its name. */
  lemma SameName(db: Database, v: int) returns (m: Migration)
    requires EachOnce(db) && v in db.ledger
    ensures m in db.executed && m.version == v && db.ledger[v].name == m.name
  {
    m :| m in db.executed && m.version == v;
  }

  lemma OutOfOrder(executed: seq<Migration>, m: Migration, n: Migration)
    requires n in executed && m.version < n.version
    ensures !InVersionOrder(executed + [m])
  {
    var i :| 0 <= i < |executed| && executed[i] == n;
    assert (executed + [m])[i] == n && (executed + [m])[|executed|] == m;
  }

  /** A lacking version below a recorded one: its runner alone loses the order. */
  lemma LateRunner(sys: System, p: nat, m: Migration, v: int) returns (trace: seq<Event>)
    requires Start(sys) && p in sys.processes && Able(sys.processes[p], sys.db.ledger)
    requires m in sys.processes[p].list && m.version !in sys.db.ledger && v in sys.db.ledger && m.version < v
    ensures !InVersionOrder(Run(sys, trace).db.executed)
  {
    var pending := Pending(sys.processes[p].list, sys.db.ledger);
    PendingExactly(sys.processes[p].list, sys.db.ledger);
    var reply, now := GateAnswer(sys.processes[p].options);
    trace := UndisturbedRun(sys, [], p, reply, now);
    var n := SameName(sys.db, v);
    var i :| 0 <= i < |sys.db.executed| && sys.db.executed[i] == n;
    var j :| 0 <= j < |pending| && pending[j] == m;
    var all := sys.db.executed + pending;
    assert all[i] == n && all[|sys.db.executed| + j] == m;
  }

  /** After `p` has committed what it has below its `m`, the ledger holds the old rows and those. */
  lemma LedgerAfterSome(sys: System, trace: seq<Event>, done: seq<Migration>)
    requires EachOnce(sys.db) && Run(sys, trace).db.executed == sys.db.executed + done
    ensures var ledger := Run(sys, trace).db.ledger;
      && (forall v :: v in ledger ==> v in sys.db.ledger || exists x :: x in done && x.version == v)
      && (forall v :: v in sys.db.ledger ==> v in ledger && ledger[v].name == sys.db.ledger[v].name)
      && (forall x :: x in done ==> Recorded(x, ledger))
  {
    NeverAppliedTwice(sys, trace);
    var db := Run(sys, trace).db;
    forall v | v in db.ledger ensures v in sys.db.ledger || exists x :: x in done && x.version == v {
      var x := SameName(db, v);
      if x in sys.db.executed {
        assert x.version in sys.db.ledger;
      }
    }
    forall v | v in sys.db.ledger ensures v in db.ledger && db.ledger[v].name == sys.db.ledger[v].name {
      var x := SameName(sys.db, v);
      assert x in db.executed;
    }
  }

  lemma StillAble(b: Process, a: seq<Migration>, m: Migration, start: map<int, Row>, done: seq<Migration>, ledger: map<int, Row>)
    requires Able(b, start) && Agree(a, b.list, m.version, start)
    requires forall x :: x in done ==> x in a && x.version < m.version && x.version !in start && Recorded(x, ledger)
    requires forall v :: v in ledger ==> v in start || exists x :: x in done && x.version == v
    requires forall v :: v in start ==> v in ledger && ledger[v].name == start[v].name
    ensures Able(b, ledger)
  {
    forall y | y in b.list && y.version in ledger ensures ledger[y.version].name == y.name {
      if y.version !in start {
        var x :| x in done && x.version == y.version;
      }
    }
  }

  /** The first of two runners, stopped just before its `m`: the other has not started. */
  lemma StopsBefore(sys: System, p: nat, m: Migration) returns (trace: seq<Event>, done: seq<Migration>)
    requires Start(sys) && p in sys.processes && Able(sys.processes[p], sys.db.ledger)
    requires m in sys.processes[p].list && m.version !in sys.db.ledger
    ensures var mid := Run(sys, trace);
      && AboutTo(mid, p, m) && mid.db.executed == sys.db.executed + done
      && mid.processes.Keys == sys.processes.Keys
      && (forall id :: id in sys.processes && id != p ==> mid.processes[id] == sys.processes[id])
    ensures forall x :: x in done ==> x in sys.processes[p].list && x.version < m.version && x.version !in sys.db.ledger
  {
    var pending := Pending(sys.processes[p].list, sys.db.ledger);
    PendingIsFresh(sys.processes[p].list, sys.db.ledger);
    var j := PendingBefore(sys.processes[p].list, m, sys.db.ledger);
    var t1 := StartsApplying(sys, [], p);
    assert pending[0..] == pending;
    trace := TransactUpTo(sys, t1, p, j);
    done := pending[0..j];
  }

  /** Where a lacking migration stands among those pending, and what stands before it. */
  lemma PendingBefore(list: seq<Migration>, m: Migration, ledger: map<int, Row>) returns (j: nat)
    requires ValidList(list) && m in list && m.version !in ledger
    ensures var pending := Pending(list, ledger);
      && j < |pending| && pending[j] == m
      && forall x :: x in pending[0..j] ==> x in list && x.version < m.version && x.version !in ledger
  {
    PendingExactly(list, ledger);
    PendingIsFresh(list, ledger);
    var pending := Pending(list, ledger);
    j :| 0 <= j < |pending| && pending[j] == m;
    assert forall x :: x in pending[0..j] ==> x in pending && x.version < m.version;
  }

  predicate AboutTo(sys: System, p: nat, m: Migration) {
    && p in sys.processes && sys.processes[p].state.Applying?
    && sys.processes[p].state.next < |sys.processes[p].state.pending|
    && sys.processes[p].state.pending[sys.processes[p].state.next] == m
  }

  /** A runner that may be overtaken: there is a run in which it is, and applies its lower version late. */
  lemma OvertakenRunner(sys: System, p: nat, m: Migration, q: nat, n: Migration) returns (trace: seq<Event>)
    requires Start(sys) && p in sys.processes && q in sys.processes && Overtakes(sys, p, m, q, n)
    ensures !InVersionOrder(Run(sys, trace).db.executed)
  {
    var t2, done := StopsBefore(sys, p, m);
    LedgerAfterSome(sys, t2, done);
    var mid := Run(sys, t2);
    StillAble(sys.processes[q], sys.processes[p].list, m, sys.db.ledger, done, mid.db.ledger);
    var reply, now := GateAnswer(sys.processes[q].options);
    var t3 := UndisturbedRun(sys, t2, q, reply, now);
    NeverAppliedTwice(sys, t2);
    NeverAppliedTwice(sys, t3);
    Overtaken(mid, Run(sys, t3), p, q, m, n);
    var e := Event(p, Transact(Committed, 0));
    trace := t3 + [e];
    RunSnoc(sys, t3, e);
  }

  /** The overtaken runner's turn again: nobody has recorded its version, and a higher one is there. */
  lemma Overtaken(mid: System, after: System, p: nat, q: nat, m: Migration, n: Migration)
    requires p != q && q in mid.processes && AboutTo(mid, p, m) && EachOnce(mid.db) && EachOnce(after.db)
    requires AppliedAll(mid, after, q, Pending(mid.processes[q].list, mid.db.ledger))
    requires m.version !in mid.db.ledger && n.version !in mid.db.ledger && m.version < n.version
    requires n in mid.processes[q].list && !Holds(mid.processes[q].list, m.version)
    ensures !InVersionOrder(Step(after, Event(p, Transact(Committed, 0))).db.executed)
  {
    var list := mid.processes[q].list;
    PendingExactly(list, mid.db.ledger);
    StillFree(mid.db, after.db, Pending(list, mid.db.ledger), list, m);
    assert n in after.db.executed;
    CommitsNext(after, p, m);
    OutOfOrder(after.db.executed, m, n);
  }

  lemma CommitsNext(sys: System, p: nat, m: Migration)
    requires AboutTo(sys, p, m) && m.version !in sys.db.ledger
    ensures Step(sys, Event(p, Transact(Committed, 0))).db.executed == sys.db.executed + [m]
  {
  }

  /** A version that nobody has recorded and that is not in the list is free after the list. */
  lemma StillFree(before: Database, after: Database, late: seq<Migration>, list: seq<Migration>, m: Migration)
    requires EachOnce(before) && EachOnce(after) && after.executed == before.executed + late
    requires (forall x :: x in late ==> x in list) && m.version !in before.ledger && !Holds(list, m.version)
    ensures m.version !in after.ledger
  {
    forall x | x in after.executed ensures x.version != m.version {
      if x in before.executed {
        assert x.version in before.ledger;
      }
    }
  }

  // ----- The two ways to lose it, on two runners -----

  function TwoRunners(first: seq<Migration>, second: seq<Migration>, o: Options, data: Data, effect: Effect): System {
    System(Database(map[], [], data), map[0 := Process(first, o, Waiting), 1 := Process(second, o, Waiting)], effect)
  }

  /** Nothing is recorded and the runners hold [m2] and [m1, m2]. */
  lemma LowerVersionAppliedLate(m1: Migration, m2: Migration, o: Options, data: Data, effect: Effect)
    requires ValidEntry(m1) && ValidEntry(m2) && m1.version < m2.version && CanPass(o)
    ensures !AlwaysInOrder(TwoRunners([m2], [m1, m2], o, data, effect))
  {
    var sys := TwoRunners([m2], [m1, m2], o, data, effect);
    assert m1 in sys.processes[1].list && m2 in sys.processes[0].list;
    assert Overtakes(sys, 1, m1, 0, m2);
    var trace := OvertakenRunner(sys, 1, m1, 0, m2);
  }

  // ----- Exactly -----

  ghost predicate AlwaysInOrder(sys: System) {
    forall trace :: InVersionOrder(Run(sys, trace).db.executed)
  }

  /** Runners with any lists, starting from any ledger, keep version order in every interleaving if
      and only if two things hold of the lists and the ledger: what a runner that can commit still
      lacks is above all that is recorded, and no such runner can overtake another. */
  lemma OrderKeptExactly(sys: System)
    requires Start(sys)
    ensures AlwaysInOrder(sys) <==> AboveRecorded(sys) && NobodyOvertakes(sys)
  {
    if AboveRecorded(sys) && NobodyOvertakes(sys) {
      forall trace ensures InVersionOrder(Run(sys, trace).db.executed) {
        RunKeepsOrder(sys, trace);
      }
    } else if !AboveRecorded(sys) {
      var p, m, v :| p in sys.processes && Able(sys.processes[p], sys.db.ledger) && m in sys.processes[p].list
        && m.version !in sys.db.ledger && v in sys.db.ledger && m.version <= v;
      var trace := LateRunner(sys, p, m, v);
    } else {
      var p, m, q, n :| p in sys.processes && q in sys.processes && Overtakes(sys, p, m, q, n);
      var trace := OvertakenRunner(sys, p, m, q, n);
    }
  }
}
