/** pg/runner.go: any number of migration runners over one ledger, with no lock.
    Only the ledger's primary key arbitrates between them. */
module Migrations {
  import opened Decimal
  import opened Environment
  import opened Text

  datatype Migration = Migration(version: int, name: string, sql: string)

  /** Instants are nanoseconds after Go's zero time. */
  datatype Receipt = Receipt(createdAt: int, sha256: string)

  datatype Options = Options(waive: bool, reason: string, gatePresent: bool, maxAge: int)

  /** Why a run may migrate; `at` is when its gate answered. */
  datatype Evidence = Waived | Accepted(receipt: Receipt, at: int)

  datatype Row = Row(name: string, appliedAt: int, evidence: Evidence, waiverReason: string)

  /** The application's own data, written out in full, and what SQL does to it. */
  type Data = string
  type Effect = (string, Data) -> Data

  /** `executed` lists the migrations whose SQL was committed, in commit order. */
  datatype Database = Database(ledger: map<int, Row>, executed: seq<Migration>, data: Data)

  // ----- validateMigrations -----

  predicate ValidEntry(m: Migration) {
    m.version > 0 && !Blank(m.name) && !Blank(m.sql)
  }

  predicate ValidList(list: seq<Migration>) {
    && (forall i :: 0 <= i < |list| ==> ValidEntry(list[i]))
    && (forall i, j :: 0 <= i < j < |list| ==> list[i].version < list[j].version)
  }

  method ValidateMigrations(migrations: seq<Migration>) returns (ok: bool)
    ensures ok <==> ValidList(migrations)
  {
    var previous := 0;
    for index := 0 to |migrations|
      invariant ValidList(migrations[..index])
      invariant index > 0 ==> previous == migrations[index - 1].version
    {
      var migration := migrations[index];
      if migration.version <= 0 {
        return false;
      }
      if index > 0 && migration.version <= previous {
        return false;
      }
      if Blank(migration.name) || Blank(migration.sql) {
        return false;
      }
      previous := migration.version;
    }
    assert migrations[..|migrations|] == migrations;
    ok := true;
  }

  // ----- validateExportReceipt -----

  const DEFAULT_MAX_AGE := 24 * 3600 * 1_000_000_000

  predicate IsHex(c: char) {
    '0' <= c <= '9' || 'a' <= c <= 'f' || 'A' <= c <= 'F'
  }

  /** time.Time.Sub saturates at the ends of a 64-bit count of nanoseconds. */
  function Elapsed(later: int, earlier: int): int {
    var d := later - earlier;
    if d > MAX_INT64 then MAX_INT64 else if d < MIN_INT64 then MIN_INT64 else d
  }

  predicate AcceptableReceipt(receipt: Receipt, now: int, maxAge: int) {
    && receipt.createdAt != 0
    && receipt.createdAt <= now
    && Elapsed(now, receipt.createdAt) <= (if maxAge <= 0 then DEFAULT_MAX_AGE else maxAge)
    && |receipt.sha256| == 64
    && forall i :: 0 <= i < 64 ==> IsHex(receipt.sha256[i])
  }

  // ----- One runner -----

  datatype Outcome = Applied | InvalidList | LedgerUnreadable | Drift | GateRefused | TransactionFailed | CommitUnknown

  datatype Runner =
    | Waiting
    | Validated
    | Gating(pending: seq<Migration>)
    | Applying(pending: seq<Migration>, next: nat, evidence: Evidence)
    | Finished(outcome: Outcome)
    | Crashed

  /** `list` and `options` are the arguments of Apply. */
  datatype Process = Process(list: seq<Migration>, options: Options, state: Runner)

  datatype GateReply = Unverified | Verified(receipt: Receipt)

  /** How a transaction ends when the primary key does not object: a statement fails and all is
      rolled back; COMMIT reports an error, whether or not it took effect; or it commits. */
  datatype TxReply = StatementFailed | CommitFailed(kept: bool) | Committed

  predicate Keeps(reply: TxReply) {
    reply.Committed? || (reply.CommitFailed? && reply.kept)
  }

  datatype Action =
    | Validate
    | ReadLedger(readable: bool)
    | Gate(proof: GateReply, now: int)
    | Transact(reply: TxReply, now: int)
    | Crash

  datatype Event = Event(id: nat, action: Action)

  datatype System = System(db: Database, processes: map<nat, Process>, effect: Effect)

  predicate Drifted(list: seq<Migration>, ledger: map<int, Row>) {
    exists m :: m in list && m.version in ledger && ledger[m.version].name != m.name
  }

  function Pending(list: seq<Migration>, ledger: map<int, Row>): seq<Migration> {
    if list == [] then []
    else if list[0].version in ledger then Pending(list[1..], ledger)
    else [list[0]] + Pending(list[1..], ledger)
  }

  /** What to record; no answer when the gate refuses. */
  function GateDecision(options: Options, reply: GateReply, now: int): Option<Evidence> {
    if options.waive then
      if options.reason == "" then None else Some(Waived)
    else if !options.gatePresent || reply.Unverified? then None
    else if AcceptableReceipt(reply.receipt, now, options.maxAge) then Some(Accepted(reply.receipt, now))
    else None
  }

  function Commit(db: Database, m: Migration, row: Row, effect: Effect): Database {
    Database(db.ledger[m.version := row], db.executed + [m], effect(m.sql, db.data))
  }

  /** One transaction: the SQL and the row are kept together, and only if the version is new. */
  function Transaction(db: Database, m: Migration, row: Row, reply: TxReply, effect: Effect): Database {
    if m.version in db.ledger || !Keeps(reply) then db else Commit(db, m, row, effect)
  }

  function AfterRead(p: Process, ledger: map<int, Row>): Runner {
    if Drifted(p.list, ledger) then Finished(Drift)
    else if Pending(p.list, ledger) == [] then Finished(Applied)
    else Gating(Pending(p.list, ledger))
  }

  function AfterTransaction(s: Runner, taken: bool, reply: TxReply): Runner
    requires s.Applying?
  {
    if taken || reply.StatementFailed? then Finished(TransactionFailed)
    else if reply.CommitFailed? then Finished(CommitUnknown)
    else if s.next + 1 >= |s.pending| then Finished(Applied)
    else s.(next := s.next + 1)
  }

  predicate Enabled(s: Runner, a: Action) {
    match a
    case Validate => s.Waiting?
    case ReadLedger(_) => s.Validated?
    case Gate(_, _) => s.Gating?
    case Transact(_, _) => s.Applying? && s.next < |s.pending|
    case Crash => !s.Finished? && !s.Crashed?
  }

  function RunnerStep(p: Process, a: Action, db: Database): Runner
    requires Enabled(p.state, a)
  {
    match a
    case Validate => if ValidList(p.list) then Validated else Finished(InvalidList)
    case ReadLedger(readable) => if readable then AfterRead(p, db.ledger) else Finished(LedgerUnreadable)
    case Gate(reply, now) =>
      (match GateDecision(p.options, reply, now)
       case None => Finished(GateRefused)
       case Some(evidence) => Applying(p.state.pending, 0, evidence))
    case Transact(reply, _) =>
      AfterTransaction(p.state, p.state.pending[p.state.next].version in db.ledger, reply)
    case Crash => Crashed
  }

  function RowFor(p: Process, now: int): Row
    requires p.state.Applying? && p.state.next < |p.state.pending|
  {
    Row(p.state.pending[p.state.next].name, now, p.state.evidence, p.options.reason)
  }

  function Step(sys: System, e: Event): System {
    if e.id !in sys.processes || !Enabled(sys.processes[e.id].state, e.action) then sys
    else
      var p := sys.processes[e.id];
      var db' := if e.action.Transact?
        then Transaction(sys.db, p.state.pending[p.state.next], RowFor(p, e.action.now), e.action.reply, sys.effect)
        else sys.db;
      System(db', sys.processes[e.id := p.(state := RunnerStep(p, e.action, sys.db))], sys.effect)
  }

  function Run(sys: System, trace: seq<Event>): System {
    if trace == [] then sys else Step(Run(sys, trace[..|trace| - 1]), trace[|trace| - 1])
  }

  // ----- The primary key alone: any lists, any interleaving -----

  predicate EachOnce(db: Database) {
    && (forall i, j :: 0 <= i < j < |db.executed| ==> db.executed[i].version != db.executed[j].version)
    && db.ledger.Keys == (set m | m in db.executed :: m.version)
    && (forall m :: m in db.executed ==> m.version in db.ledger && db.ledger[m.version].name == m.name)
  }

  lemma CommitEachOnce(db: Database, m: Migration, row: Row, effect: Effect)
    requires EachOnce(db) && m.version !in db.ledger && row.name == m.name
    ensures EachOnce(Commit(db, m, row, effect))
  {
    var db' := Commit(db, m, row, effect);
    assert forall x :: x in db'.executed <==> x in db.executed || x == m;
    assert forall x :: x in db.executed ==> x.version in db.ledger;
    forall i | 0 <= i < |db.executed| ensures db.executed[i].version != m.version {
      assert db.executed[i] in db.executed;
    }
  }

  /** Whatever lists the runners are given and however they interleave, crash or lose replies,
      no version's SQL is ever committed twice, and the ledger lists exactly what was committed. */
  lemma {:induction false} NeverAppliedTwice(sys: System, trace: seq<Event>)
    requires EachOnce(sys.db)
    ensures EachOnce(Run(sys, trace).db)
    ensures sys.db.executed <= Run(sys, trace).db.executed
  {
    if trace != [] {
      var before := Run(sys, trace[..|trace| - 1]);
      NeverAppliedTwice(sys, trace[..|trace| - 1]);
      var e := trace[|trace| - 1];
      if Step(before, e).db != before.db {
        var p := before.processes[e.id];
        CommitEachOnce(before.db, p.state.pending[p.state.next], RowFor(p, e.action.now), before.effect);
      }
    }
  }

  // ----- The export gate -----

  /** The gate of this run answered with this receipt at that time. */
  predicate GatePassed(trace: seq<Event>, id: nat, receipt: Receipt, at: int) {
    exists k :: 0 <= k < |trace| && trace[k] == Event(id, Gate(Verified(receipt), at))
  }

  /** A stated waiver, or a receipt that this run's gate gave and that was acceptable, at the time
      the gate answered, under the age limit of this very run. */
  predicate Earned(evidence: Evidence, id: nat, options: Options, trace: seq<Event>) {
    match evidence
    case Waived => options.waive && options.reason != ""
    case Accepted(receipt, at) =>
      !options.waive && AcceptableReceipt(receipt, at, options.maxAge) && GatePassed(trace, id, receipt, at)
  }

  /** Transaction `k` of the trace added this row: its run was about to apply the version, which was
      free, and had earned it by then. */
  predicate Adds(sys: System, trace: seq<Event>, k: nat, v: int, row: Row)
    requires k < |trace|
  {
    var e, before := trace[k], Run(sys, trace[..k]);
    && e.action.Transact? && e.id in before.processes
    && var p := before.processes[e.id];
       && p.state.Applying? && p.state.next < |p.state.pending| && p.state.pending[p.state.next].version == v
       && v !in before.db.ledger && row == RowFor(p, e.action.now)
       && Earned(row.evidence, e.id, p.options, trace[..k])
  }

  ghost predicate RowEarned(v: int, row: Row, sys: System, trace: seq<Event>) {
    exists k :: 0 <= k < |trace| && Adds(sys, trace, k, v, row)
  }

  ghost predicate AllEarned(start: System, now: System, trace: seq<Event>) {
    && now.processes.Keys == start.processes.Keys
    && (forall id :: id in now.processes ==> now.processes[id].options == start.processes[id].options)
    && (forall v :: v in now.db.ledger && v !in start.db.ledger ==> RowEarned(v, now.db.ledger[v], start, trace))
    && (forall id :: id in now.processes && now.processes[id].state.Applying? ==>
          Earned(now.processes[id].state.evidence, id, now.processes[id].options, trace))
  }

  lemma EarnedLater(evidence: Evidence, id: nat, options: Options, trace: seq<Event>, e: Event)
    requires Earned(evidence, id, options, trace)
    ensures Earned(evidence, id, options, trace + [e])
  {
    if evidence.Accepted? {
      var k :| 0 <= k < |trace| && trace[k] == Event(id, Gate(Verified(evidence.receipt), evidence.at));
      assert (trace + [e])[k] == trace[k];
    }
  }

  lemma RowEarnedLater(v: int, row: Row, sys: System, trace: seq<Event>, e: Event)
    requires RowEarned(v, row, sys, trace)
    ensures RowEarned(v, row, sys, trace + [e])
  {
    var k :| 0 <= k < |trace| && Adds(sys, trace, k, v, row);
    var longer := trace + [e];
    assert longer[..k] == trace[..k] && longer[k] == trace[k];
    assert Adds(sys, longer, k, v, row);
  }

  /** The row that a step adds is earned by the run that takes it. */
  lemma NewRowEarned(start: System, trace: seq<Event>, e: Event, v: int)
    requires AllEarned(start, Run(start, trace), trace)
    requires var now, after := Run(start, trace), Step(Run(start, trace), e);
      v in after.db.ledger && (v !in now.db.ledger || after.db.ledger[v] != now.db.ledger[v])
    ensures RowEarned(v, Step(Run(start, trace), e).db.ledger[v], start, trace + [e])
  {
    var longer := trace + [e];
    assert longer[|trace|] == e && longer[..|trace|] == trace;
    assert Adds(start, longer, |trace|, v, Step(Run(start, trace), e).db.ledger[v]);
  }

  lemma StepEarned(start: System, trace: seq<Event>, e: Event)
    requires AllEarned(start, Run(start, trace), trace)
    ensures AllEarned(start, Step(Run(start, trace), e), trace + [e])
  {
    var now, after := Run(start, trace), Step(Run(start, trace), e);
    var longer := trace + [e];
    assert longer[|trace|] == e;
    forall id | id in after.processes && after.processes[id].state.Applying?
      ensures Earned(after.processes[id].state.evidence, id, after.processes[id].options, longer)
    {
      if now.processes[id].state.Applying? {
        EarnedLater(now.processes[id].state.evidence, id, now.processes[id].options, trace, e);
      }
    }
    forall v | v in after.db.ledger && v !in start.db.ledger ensures RowEarned(v, after.db.ledger[v], start, longer) {
      if v in now.db.ledger && after.db.ledger[v] == now.db.ledger[v] {
        RowEarnedLater(v, now.db.ledger[v], start, trace, e);
      } else {
        NewRowEarned(start, trace, e, v);
      }
    }
  }

  /** Every row that any run, however interleaved, adds to the ledger was earned by the run that
      added it. */
  lemma {:induction false} NothingUnauthorised(sys: System, trace: seq<Event>)
    requires forall id :: id in sys.processes ==> sys.processes[id].state.Waiting?
    ensures AllEarned(sys, Run(sys, trace), trace)
  {
    if trace != [] {
      var n := |trace| - 1;
      var before, e := trace[..n], trace[n];
      assert trace == before + [e];
      NothingUnauthorised(sys, before);
      StepEarned(sys, before, e);
      RunSnoc(sys, before, e);
    }
  }

  // ----- Lists that are prefixes of one master list -----

  /** The database is the result of exactly the first `|executed|` master migrations. */
  predicate IsPrefixOf(db: Database, master: seq<Migration>) {
    EachOnce(db) && db.executed <= master
  }

  function Done(db: Database): nat {
    |db.executed|
  }

  /** The part of `list` that was pending starts at this position of the master list. */
  function Offset(p: Process): int
    requires p.state.Gating? || p.state.Applying?
  {
    |p.list| - |p.state.pending|
  }

  predicate PendingIsRest(p: Process)
    requires p.state.Gating? || p.state.Applying?
  {
    0 <= Offset(p) < |p.list| && p.state.pending == p.list[Offset(p)..]
  }

  /** What a runner in this state knows of the database. */
  predicate ProcessInv(p: Process, db: Database) {
    match p.state
    case Gating(_) => PendingIsRest(p) && Offset(p) <= Done(db)
    case Applying(pending, next, _) =>
      PendingIsRest(p) && next < |pending| && Offset(p) + next <= Done(db)
    case Finished(outcome) => outcome.Applied? ==> |p.list| <= Done(db)
    case _ => true
  }

  predicate Inv(sys: System, master: seq<Migration>) {
    && ValidList(master)
    && IsPrefixOf(sys.db, master)
    && forall id :: id in sys.processes ==>
         sys.processes[id].list <= master && ProcessInv(sys.processes[id], sys.db)
  }

  predicate Initial(sys: System, master: seq<Migration>) {
    && ValidList(master)
    && IsPrefixOf(sys.db, master)
    && forall id :: id in sys.processes ==> sys.processes[id].list <= master && sys.processes[id].state.Waiting?
  }

  /** Against a ledger that is a prefix, a version is recorded exactly when it is in the prefix. */
  lemma RecordedIffExecuted(db: Database, master: seq<Migration>, i: nat)
    requires ValidList(master) && IsPrefixOf(db, master) && i < |master|
    ensures master[i].version in db.ledger <==> i < Done(db)
    ensures i < Done(db) ==> db.ledger[master[i].version].name == master[i].name
  {
    if i < Done(db) {
      assert db.executed[i] in db.executed && db.executed[i] == master[i];
    }
    if master[i].version in db.ledger {
      var m :| m in db.executed && m.version == master[i].version;
      var j :| 0 <= j < |db.executed| && db.executed[j] == m;
      assert master[j] == m;
    }
  }

  lemma {:induction false} NoneRecorded(list: seq<Migration>, ledger: map<int, Row>)
    requires forall i :: 0 <= i < |list| ==> list[i].version !in ledger
    ensures Pending(list, ledger) == list
  {
    if list != [] {
      NoneRecorded(list[1..], ledger);
      assert list == [list[0]] + list[1..];
    }
  }

  lemma {:induction false} RecordedSkipped(list: seq<Migration>, k: nat, ledger: map<int, Row>)
    requires k <= |list| && forall i :: 0 <= i < k ==> list[i].version in ledger
    ensures Pending(list, ledger) == Pending(list[k..], ledger)
  {
    if k == 0 {
      assert list[0..] == list;
    } else {
      RecordedSkipped(list[1..], k - 1, ledger);
      assert list[1..][k - 1..] == list[k..];
    }
  }

  lemma PendingOfPrefix(list: seq<Migration>, db: Database, master: seq<Migration>)
    requires ValidList(master) && IsPrefixOf(db, master) && list <= master
    ensures Pending(list, db.ledger) == if Done(db) <= |list| then list[Done(db)..] else []
  {
    forall i | 0 <= i < |list| ensures list[i].version in db.ledger <==> i < Done(db) {
      RecordedIffExecuted(db, master, i);
    }
    var k := if Done(db) <= |list| then Done(db) else |list|;
    RecordedSkipped(list, k, db.ledger);
    NoneRecorded(list[k..], db.ledger);
  }

  lemma NoDrift(list: seq<Migration>, db: Database, master: seq<Migration>)
    requires ValidList(master) && IsPrefixOf(db, master) && list <= master
    ensures !Drifted(list, db.ledger)
  {
    forall m | m in list && m.version in db.ledger ensures db.ledger[m.version].name == m.name {
      var i :| 0 <= i < |list| && list[i] == m;
      assert master[i] == m;
      RecordedIffExecuted(db, master, i);
    }
  }

  lemma ReadExactly(p: Process, db: Database, master: seq<Migration>)
    requires ValidList(master) && IsPrefixOf(db, master) && p.list <= master
    ensures AfterRead(p, db.ledger)
         == if Done(db) < |p.list| then Gating(p.list[Done(db)..]) else Finished(Applied)
  {
    NoDrift(p.list, db, master);
    PendingOfPrefix(p.list, db, master);
  }

  lemma ReadKeepsInv(p: Process, db: Database, master: seq<Migration>)
    requires ValidList(master) && IsPrefixOf(db, master) && p.list <= master
    ensures ProcessInv(p.(state := AfterRead(p, db.ledger)), db)
  {
    ReadExactly(p, db, master);
    var p' := p.(state := AfterRead(p, db.ledger));
    if Done(db) < |p.list| {
      assert Offset(p') == Done(db);
    }
  }

  /** A commit is always of the next master migration: all earlier ones are already in. */
  lemma TransactionKeepsPrefix(p: Process, db: Database, master: seq<Migration>, reply: TxReply, now: int, effect: Effect)
    requires ValidList(master) && IsPrefixOf(db, master) && p.list <= master
    requires p.state.Applying? && ProcessInv(p, db)
    ensures var m := p.state.pending[p.state.next];
      var db' := Transaction(db, m, RowFor(p, now), reply, effect);
      var p' := p.(state := AfterTransaction(p.state, m.version in db.ledger, reply));
      && m == master[Offset(p) + p.state.next]
      && (m.version in db.ledger <==> Offset(p) + p.state.next < Done(db))
      && (db' != db ==> m == master[Done(db)])
      && IsPrefixOf(db', master) && Done(db) <= Done(db') && ProcessInv(p', db')
  {
    var i := Offset(p) + p.state.next;
    var m := p.state.pending[p.state.next];
    assert m == p.list[i] == master[i];
    RecordedIffExecuted(db, master, i);
    if m.version !in db.ledger {
      CommitNext(db, m, RowFor(p, now), effect, master);
    }
  }

  lemma CommitNext(db: Database, m: Migration, row: Row, effect: Effect, master: seq<Migration>)
    requires IsPrefixOf(db, master) && Done(db) < |master| && m == master[Done(db)]
    requires m.version !in db.ledger && row.name == m.name
    ensures IsPrefixOf(Commit(db, m, row, effect), master)
  {
    CommitEachOnce(db, m, row, effect);
    assert db.executed + [m] <= master;
  }

  /** What the others commit never unsettles what a runner knows. */
  lemma ProcessInvStable(p: Process, db: Database, db': Database)
    requires ProcessInv(p, db) && Done(db) <= Done(db')
    ensures ProcessInv(p, db')
  {
  }

  lemma ActorKeepsInv(sys: System, e: Event, master: seq<Migration>)
    requires Inv(sys, master) && e.id in sys.processes && Enabled(sys.processes[e.id].state, e.action)
    ensures var sys' := Step(sys, e);
      && IsPrefixOf(sys'.db, master) && Done(sys.db) <= Done(sys'.db) <= Done(sys.db) + 1
      && ProcessInv(sys'.processes[e.id], sys'.db)
  {
    var p := sys.processes[e.id];
    match e.action
    case ReadLedger(readable) =>
      ReadKeepsInv(p, sys.db, master);
    case Transact(reply, now) =>
      TransactionKeepsPrefix(p, sys.db, master, reply, now, sys.effect);
    case _ =>
  }

  lemma StepKeepsInv(sys: System, e: Event, master: seq<Migration>)
    requires Inv(sys, master)
    ensures Inv(Step(sys, e), master)
    ensures Done(sys.db) <= Done(Step(sys, e).db) <= Done(sys.db) + 1
  {
    if e.id in sys.processes && Enabled(sys.processes[e.id].state, e.action) {
      ActorKeepsInv(sys, e, master);
      var sys' := Step(sys, e);
      forall id | id in sys'.processes
        ensures sys'.processes[id].list <= master && ProcessInv(sys'.processes[id], sys'.db)
      {
        if id != e.id {
          ProcessInvStable(sys.processes[id], sys.db, sys'.db);
        }
      }
    }
  }

  lemma {:induction false} RunKeepsInv(sys: System, trace: seq<Event>, master: seq<Migration>)
    requires Inv(sys, master)
    ensures Inv(Run(sys, trace), master)
    ensures Done(sys.db) <= Done(Run(sys, trace).db)
  {
    if trace != [] {
      RunKeepsInv(sys, trace[..|trace| - 1], master);
      StepKeepsInv(Run(sys, trace[..|trace| - 1]), trace[|trace| - 1], master);
    }
  }

  /** The main result: at every point of every interleaving the ledger is a prefix of the master
      list, what was committed is that prefix in order, and a run that reported success has its
      whole list in it. */
  lemma AlwaysAPrefix(sys: System, trace: seq<Event>, master: seq<Migration>, k: nat)
    requires Initial(sys, master) && k <= |trace|
    ensures var now := Run(sys, trace[..k]);
      && Done(now.db) <= |master|
      && now.db.executed == master[..Done(now.db)]
      && now.db.ledger.Keys == (set m | m in master[..Done(now.db)] :: m.version)
      && forall id :: id in now.processes && now.processes[id].state == Finished(Applied) ==>
           now.processes[id].list <= now.db.executed
  {
    RunKeepsInv(sys, trace[..k], master);
    var now := Run(sys, trace[..k]);
    forall id | id in now.processes && now.processes[id].state == Finished(Applied)
      ensures now.processes[id].list <= now.db.executed
    {
      assert ProcessInv(now.processes[id], now.db);
    }
  }

  // ----- What is in the database -----

  /** The data after the SQL of `executed`, one after the other. */
  function Fold(effect: Effect, data: Data, executed: seq<Migration>): Data {
    if executed == [] then data
    else effect(executed[|executed| - 1].sql, Fold(effect, data, executed[..|executed| - 1]))
  }

  lemma FoldSnoc(effect: Effect, data: Data, executed: seq<Migration>, m: Migration)
    ensures Fold(effect, data, executed + [m]) == effect(m.sql, Fold(effect, data, executed))
  {
    assert (executed + [m])[..|executed|] == executed;
  }

  /** Whatever SQL does to the data, and whatever lists the runners have: the data is at all times
      what the committed SQL, in commit order, makes of the data there was. */
  lemma {:induction false} DataIsFold(sys: System, trace: seq<Event>, data: Data)
    requires sys.db.data == Fold(sys.effect, data, sys.db.executed)
    ensures Run(sys, trace).effect == sys.effect
    ensures Run(sys, trace).db.data == Fold(sys.effect, data, Run(sys, trace).db.executed)
  {
    if trace != [] {
      var n := |trace| - 1;
      var before := Run(sys, trace[..n]);
      DataIsFold(sys, trace[..n], data);
      if trace[n].id in before.processes && Enabled(before.processes[trace[n].id].state, trace[n].action)
         && trace[n].action.Transact? {
        var s := before.processes[trace[n].id].state;
        FoldSnoc(sys.effect, data, before.db.executed, s.pending[s.next]);
      }
    }
  }

  /** With lists that are prefixes of one master list, it is what the recorded prefix makes of it. */
  lemma DataIsFoldOfPrefix(sys: System, trace: seq<Event>, data: Data, master: seq<Migration>)
    requires Initial(sys, master) && sys.db.data == Fold(sys.effect, data, sys.db.executed)
    ensures var db := Run(sys, trace).db;
      Done(db) <= |master| && db.data == Fold(sys.effect, data, master[..Done(db)])
  {
    DataIsFold(sys, trace, data);
    AlwaysAPrefix(sys, trace, master, |trace|);
    assert trace[..|trace|] == trace;
  }

  // ----- A run that is left alone -----

  lemma RunSnoc(sys: System, trace: seq<Event>, e: Event)
    ensures Run(sys, trace + [e]) == Step(Run(sys, trace), e)
  {
    assert (trace + [e])[..|trace|] == trace;
  }

  predicate Fresh(pending: seq<Migration>, ledger: map<int, Row>) {
    && (forall i :: 0 <= i < |pending| ==> pending[i].version !in ledger)
    && (forall i, j :: 0 <= i < j < |pending| ==> pending[i].version != pending[j].version)
  }

  predicate AppliedAll(before: System, after: System, id: nat, pending: seq<Migration>)
    requires id in before.processes
  {
    && after.db.executed == before.db.executed + pending
    && after.processes == before.processes[id := before.processes[id].(state := Finished(Applied))]
  }

  /** A runner left alone, up to just before its `j`-th pending migration. */
  lemma {:induction false} TransactUpTo(sys: System, trace: seq<Event>, id: nat, j: nat) returns (longer: seq<Event>)
    requires var at := Run(sys, trace);
      && id in at.processes && at.processes[id].state.Applying?
      && at.processes[id].state.next <= j < |at.processes[id].state.pending|
      && Fresh(at.processes[id].state.pending[at.processes[id].state.next..], at.db.ledger)
    ensures var at, after := Run(sys, trace), Run(sys, longer);
      var s := at.processes[id].state;
      && after.db.executed == at.db.executed + s.pending[s.next..j]
      && after.processes == at.processes[id := at.processes[id].(state := s.(next := j))]
      && Fresh(s.pending[j..], after.db.ledger)
    decreases j - Run(sys, trace).processes[id].state.next
  {
    var s := Run(sys, trace).processes[id].state;
    if s.next == j {
      longer := trace;
    } else {
      longer := TransactUpTo(sys, trace, id, j - 1);
      TransactOne(sys, longer, id);
      longer := longer + [Event(id, Transact(Committed, 0))];
      assert s.pending[s.next..j] == s.pending[s.next..j - 1] + [s.pending[j - 1]];
    }
  }

  lemma TransactOne(sys: System, trace: seq<Event>, id: nat)
    requires var at := Run(sys, trace);
      && id in at.processes && at.processes[id].state.Applying?
      && at.processes[id].state.next < |at.processes[id].state.pending|
      && Fresh(at.processes[id].state.pending[at.processes[id].state.next..], at.db.ledger)
    ensures var at, after := Run(sys, trace), Run(sys, trace + [Event(id, Transact(Committed, 0))]);
      var s := at.processes[id].state;
      && after.db.executed == at.db.executed + [s.pending[s.next]]
      && after.processes
      == at.processes[id := at.processes[id].(state := AfterTransaction(s, false, Committed))]
      && Fresh(s.pending[s.next + 1..], after.db.ledger)
  {
    var s := Run(sys, trace).processes[id].state;
    RunSnoc(sys, trace, Event(id, Transact(Committed, 0)));
    FreshTail(s.pending, s.next, Run(sys, trace).db.ledger, RowFor(Run(sys, trace).processes[id], 0));
  }

  lemma FreshTail(pending: seq<Migration>, next: nat, ledger: map<int, Row>, row: Row)
    requires next < |pending| && Fresh(pending[next..], ledger)
    ensures pending[next].version !in ledger
    ensures Fresh(pending[next + 1..], ledger[pending[next].version := row])
  {
    var all, rest := pending[next..], pending[next + 1..];
    assert all[0] == pending[next];
    assert forall i :: 0 <= i < |rest| ==> rest[i] == all[i + 1];
  }

  lemma TransactAll(sys: System, trace: seq<Event>, id: nat) returns (longer: seq<Event>)
    requires var now := Run(sys, trace);
      && id in now.processes && now.processes[id].state.Applying?
      && now.processes[id].state.next < |now.processes[id].state.pending|
      && Fresh(now.processes[id].state.pending[now.processes[id].state.next..], now.db.ledger)
    ensures var now := Run(sys, trace);
      AppliedAll(now, Run(sys, longer), id, now.processes[id].state.pending[now.processes[id].state.next..])
  {
    var s := Run(sys, trace).processes[id].state;
    var last := |s.pending| - 1;
    longer := TransactUpTo(sys, trace, id, last);
    TransactOne(sys, longer, id);
    longer := longer + [Event(id, Transact(Committed, 0))];
    assert s.pending[s.next..] == s.pending[s.next..last] + [s.pending[last]];
  }

  /** A run that is left alone, its gate passing and nothing failing, commits exactly what the
      ledger lacked of its list, in list order. */
  lemma UndisturbedRun(sys: System, trace: seq<Event>, id: nat, reply: GateReply, now: int)
    returns (longer: seq<Event>)
    requires var at := Run(sys, trace);
      && id in at.processes && at.processes[id].state.Waiting? && ValidList(at.processes[id].list)
      && !Drifted(at.processes[id].list, at.db.ledger)
      && GateDecision(at.processes[id].options, reply, now).Some?
    ensures var at := Run(sys, trace);
      AppliedAll(at, Run(sys, longer), id, Pending(at.processes[id].list, at.db.ledger))
  {
    var at := Run(sys, trace);
    var pending := Pending(at.processes[id].list, at.db.ledger);
    PendingIsFresh(at.processes[id].list, at.db.ledger);
    var t1 := trace + [Event(id, Validate)];
    RunSnoc(sys, trace, Event(id, Validate));
    longer := t1 + [Event(id, ReadLedger(true))];
    RunSnoc(sys, t1, Event(id, ReadLedger(true)));
    if pending != [] {
      RunSnoc(sys, longer, Event(id, Gate(reply, now)));
      longer := longer + [Event(id, Gate(reply, now))];
      assert pending[0..] == pending;
      longer := TransactAll(sys, longer, id);
    }
  }

  lemma {:induction false} PendingIsFresh(list: seq<Migration>, ledger: map<int, Row>)
    requires ValidList(list)
    ensures Fresh(Pending(list, ledger), ledger) && ValidList(Pending(list, ledger))
    ensures forall m :: m in Pending(list, ledger) ==> m in list
  {
    if list != [] {
      assert forall i :: 0 <= i < |list[1..]| ==> list[1..][i] == list[i + 1];
      PendingIsFresh(list[1..], ledger);
      var rest := Pending(list[1..], ledger);
      forall i | 0 <= i < |rest| ensures list[0].version < rest[i].version {
        assert rest[i] in list[1..];
      }
    }
  }

  // ----- Runner.Apply -----

  /** The connection pool: other runners may take any steps before each of this runner's. */
  class Pool {
    var sys: System
    ghost var start: System
    ghost var trace: seq<Event>

    ghost predicate Valid()
      reads this
    {
      sys == Run(start, trace)
    }

    constructor (initial: System)
      ensures Valid() && sys == start == initial && trace == []
    {
      sys, start, trace := initial, initial, [];
    }

    method Record(e: Event)
      requires Valid()
      modifies this
      ensures Valid() && start == old(start) && old(trace) < trace
      ensures sys == Step(old(sys), e)
    {
      assert (trace + [e])[..|trace|] == trace;
      sys, trace := Step(sys, e), trace + [e];
    }

    /** Everybody but `me`: any number of steps, any outcomes. */
    method Others(me: nat)
      requires Valid() && me in sys.processes
      modifies this
      ensures Valid() && start == old(start) && old(trace) <= trace
      ensures me in sys.processes && sys.processes[me] == old(sys.processes[me])
    {
      var steps: nat := Any();
      while steps > 0
        invariant Valid() && start == old(start) && old(trace) <= trace
        invariant me in sys.processes && sys.processes[me] == old(sys.processes[me])
      {
        var e: Event := Any();
        if e.id != me {
          Record(e);
        }
        steps := steps - 1;
      }
    }

    /** `me` takes one step after the others have taken theirs. */
    method Command(me: nat, action: Action)
      requires Valid() && me in sys.processes && Enabled(sys.processes[me].state, action)
      modifies this
      ensures Valid() && start == old(start) && old(trace) <= trace
      ensures me in sys.processes && sys.processes[me].list == old(sys.processes[me].list)
      ensures sys.processes[me].options == old(sys.processes[me].options)
      ensures exists before: Database ::
        sys.processes[me].state == RunnerStep(old(sys.processes[me]), action, before)
    {
      Others(me);
      ghost var before := sys.db;
      Record(Event(me, action));
      assert sys.processes[me].state == RunnerStep(old(sys.processes[me]), action, before);
    }

    /** SELECT version, name. */
    method Select(me: nat) returns (readable: bool, applied: map<int, string>, ghost before: map<int, Row>)
      requires Valid() && me in sys.processes && sys.processes[me].state.Validated?
      modifies this
      ensures Valid() && start == old(start) && old(trace) <= trace
      ensures me in sys.processes && sys.processes[me].list == old(sys.processes[me].list)
      ensures sys.processes[me].options == old(sys.processes[me].options)
      ensures applied == map v | v in before :: before[v].name
      ensures sys.processes[me].state
           == if readable then AfterRead(old(sys.processes[me]), before) else Finished(LedgerUnreadable)
    {
      Others(me);
      before := sys.db.ledger;
      applied := map v | v in sys.db.ledger :: sys.db.ledger[v].name;
      readable := Any();
      Record(Event(me, ReadLedger(readable)));
    }

    /** BEGIN, the SQL, the ledger insert and COMMIT. */
    method Transact(me: nat, now: int) returns (failure: Option<Outcome>)
      requires Valid() && me in sys.processes
      requires var s := sys.processes[me].state; s.Applying? && s.next < |s.pending|
      modifies this
      ensures Valid() && start == old(start) && old(trace) <= trace
      ensures me in sys.processes && sys.processes[me].list == old(sys.processes[me].list)
      ensures sys.processes[me].options == old(sys.processes[me].options)
      ensures failure.None? ==>
        sys.processes[me].state == AfterTransaction(old(sys.processes[me].state), false, Committed)
      ensures failure.Some? ==> !failure.value.Applied? && sys.processes[me].state == Finished(failure.value)
    {
      Others(me);
      var reply: TxReply := Any();
      var s := sys.processes[me].state;
      var taken := s.pending[s.next].version in sys.db.ledger;
      var event := Event(me, Action.Transact(reply, now));
      assert Enabled(s, event.action);
      Record(event);
      if taken || reply.StatementFailed? {
        failure := Some(TransactionFailed);
      } else if reply.CommitFailed? {
        failure := Some(CommitUnknown);
      } else {
        failure := None;
      }
    }
  }

  /** Walks the supplied list against the ledger; no answer on drift. */
  method CollectPending(list: seq<Migration>, applied: map<int, string>, ghost ledger: map<int, Row>)
    returns (pending: Option<seq<Migration>>)
    requires applied == map v | v in ledger :: ledger[v].name
    ensures pending == if Drifted(list, ledger) then None else Some(Pending(list, ledger))
  {
    var collected: seq<Migration> := [];
    for i := 0 to |list|
      invariant !Drifted(list[..i], ledger)
      invariant collected + Pending(list[i..], ledger) == Pending(list, ledger)
    {
      var migration := list[i];
      ghost var rest := list[i..];
      assert rest[0] == migration && rest[1..] == list[i + 1..];
      assert list[..i + 1] == list[..i] + [migration];
      assert migration in list;
      if migration.version in applied {
        if applied[migration.version] != migration.name {
          return None;
        }
      } else {
        collected := collected + [migration];
      }
    }
    assert list[..|list|] == list && list[|list|..] == [];
    assert Pending([], ledger) == [] && collected + [] == collected;
    pending := Some(collected);
  }

  /** Every command of Apply is a step of the runner's state machine, taken in a system that
      the other runners keep changing; so all that holds of every trace holds of every call. */
  method Apply(pool: Pool, me: nat, migrations: seq<Migration>, options: Options) returns (outcome: Outcome)
    requires pool.Valid() && me in pool.sys.processes
    requires pool.sys.processes[me] == Process(migrations, options, Waiting)
    modifies pool
    ensures pool.Valid() && pool.start == old(pool.start) && old(pool.trace) <= pool.trace
    ensures me in pool.sys.processes
    ensures pool.sys.processes[me] == Process(migrations, options, Finished(outcome))
  {
    var valid := ValidateMigrations(migrations);
    pool.Command(me, Validate);
    if !valid {
      return InvalidList;
    }
    var readable, applied, ledger := pool.Select(me);
    if !readable {
      return LedgerUnreadable;
    }
    var collected := CollectPending(migrations, applied, ledger);
    if collected.None? {
      return Drift;
    }
    var pending := collected.value;
    if |pending| == 0 {
      return Applied;
    }
    var reply: GateReply := Any();
    var gateTime: int := Any();
    pool.Command(me, Gate(reply, gateTime));
    if GateDecision(options, reply, gateTime).None? {
      return GateRefused;
    }
    for i := 0 to |pending|
      invariant pool.Valid() && pool.start == old(pool.start) && old(pool.trace) <= pool.trace
      invariant me in pool.sys.processes
      invariant pool.sys.processes[me].list == migrations && pool.sys.processes[me].options == options
      invariant var s := pool.sys.processes[me].state;
        if i < |pending| then s.Applying? && s.pending == pending && s.next == i else s == Finished(Applied)
    {
      var now: int := Any();
      var failure := pool.Transact(me, now);
      if failure.Some? {
        return failure.value;
      }
    }
    outcome := Applied;
  }

  /** A call that returns success leaves its whole list in the ledger, in order, whatever the others did. */
  method ApplyChecked(pool: Pool, me: nat, migrations: seq<Migration>, options: Options, ghost master: seq<Migration>)
    returns (outcome: Outcome)
    requires pool.Valid() && Initial(pool.start, master) && me in pool.sys.processes
    requires pool.sys.processes[me] == Process(migrations, options, Waiting)
    modifies pool
    ensures outcome.Applied? ==> migrations <= pool.sys.db.executed
    ensures pool.sys.db.executed <= master
    ensures old(pool.sys.db.executed) <= pool.sys.db.executed
  {
    ghost var before := pool.trace;
    RunKeepsInv(pool.start, pool.trace, master);
    outcome := Apply(pool, me, migrations, options);
    AlwaysAPrefix(pool.start, pool.trace, master, |pool.trace|);
    assert pool.trace[..|pool.trace|] == pool.trace;
    GrowsAlong(pool.start, before, pool.trace, master);
  }

  lemma {:induction false} GrowsAlong(sys: System, before: seq<Event>, trace: seq<Event>, master: seq<Migration>)
    requires Initial(sys, master) && before <= trace
    ensures Run(sys, before).db.executed <= Run(sys, trace).db.executed
  {
    if before == trace {
    } else {
      GrowsAlong(sys, before, trace[..|trace| - 1], master);
      NeverAppliedTwice(sys, trace[..|trace| - 1]);
      var now := Run(sys, trace[..|trace| - 1]);
      RunKeepsInv(sys, trace[..|trace| - 1], master);
      StepKeepsInv(now, trace[|trace| - 1], master);
    }
  }
}
