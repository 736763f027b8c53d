/** github/client.go: the budgeted, deduplicated, cached token mint.  The mutex covers
    admission, rate recording and completion; the network call runs outside it, so any
    number of mints interleave as those three kinds of step. */
module TokenMinter {
  import opened Decimal
  import opened Environment
  import opened PermissionKey
  import opened Text

  const SECOND := 1_000_000_000
  const MINUTE := 60 * SECOND

  datatype Config = Config(callBudget: int, dedupeWindow: int, rateLimitFloor: int)

  /** New's treatment of the three limits: zero means the default, a negative window none. */
  function Normalise(config: Config): (c: Config)
    ensures c.callBudget > 0 && c.rateLimitFloor > 0 && c.dedupeWindow >= 0
    ensures c.dedupeWindow == 0 <==> config.dedupeWindow < 0
    ensures Normalised(config) ==> c == config
  {
    Config(
      if config.callBudget <= 0 then 500 else config.callBudget,
      if config.dedupeWindow == 0 then 5 * MINUTE else if config.dedupeWindow < 0 then 0 else config.dedupeWindow,
      if config.rateLimitFloor <= 0 then 50 else config.rateLimitFloor)
  }

  predicate Normalised(config: Config) {
    config.callBudget > 0 && config.dedupeWindow > 0 && config.rateLimitFloor > 0
  }

  datatype Token = Token(value: string, repo: string, permissions: Permissions, installation: int,
                         mintedAt: int, expiresAt: int)

  predicate Expired(t: Token, now: int, skew: int) {
    !(now < t.expiresAt - skew)
  }

  /** The fields the mutex protects. */
  datatype Fields = Fields(callsMade: int, rateRemaining: int, rateKnown: bool,
                           dedupe: map<string, int>, tokens: map<string, Token>)

  datatype Admission = Hit(token: Token) | Duplicate | OverBudget | BelowFloor | Admitted

  /** Three readings of one non-decreasing clock inside the critical section. */
  datatype Readings = Readings(forCache: int, forDedupe: int, forArming: int)

  function Admit(c: Config, f: Fields, key: string, t: Readings): Admission {
    if key in f.tokens && !Expired(f.tokens[key], t.forCache, MINUTE) then Hit(f.tokens[key])
    else if c.dedupeWindow > 0 && key in f.dedupe && t.forDedupe - f.dedupe[key] < c.dedupeWindow then Duplicate
    else if f.callsMade >= c.callBudget then OverBudget
    else if f.rateKnown && f.rateRemaining < c.rateLimitFloor then BelowFloor
    else Admitted
  }

  function Armed(f: Fields, key: string, at: int): Fields {
    f.(dedupe := f.dedupe[key := at], callsMade := f.callsMade + 1)
  }

  function AfterAdmit(c: Config, f: Fields, key: string, t: Readings): Fields {
    if Admit(c, f, key, t).Admitted? then Armed(f, key, t.forArming) else f
  }

  /** recordRateLimit: an absent or unreadable header changes nothing. */
  function AfterRate(f: Fields, header: string): Fields {
    if header == "" || ParseInt(header).None? then f
    else f.(rateRemaining := ParseInt(header).value, rateKnown := true)
  }

  function AfterFailure(f: Fields, key: string, armedAt: int): Fields {
    if key in f.dedupe && f.dedupe[key] == armedAt then f.(dedupe := f.dedupe - {key}) else f
  }

  function AfterSuccess(f: Fields, key: string, token: Token): Fields {
    f.(tokens := f.tokens[key := token])
  }

  // ----- All interleavings of mints -----

  /** One admitted mint.  `failedAfter` is how many mints had been admitted when it failed. */
  datatype Arm = Arm(key: string, request: Request, at: int, failedAfter: Option<nat>)

  /** `flights` maps a mint between admission and completion to its place in `arms`. */
  datatype System = System(fields: Fields, arms: seq<Arm>, flights: map<nat, nat>, clock: int)

  datatype Event =
    | AdmitEvent(id: nat, request: Request, times: Readings)
    | RateEvent(header: string)
    | FailEvent(id: nat, time: int)
    | SucceedEvent(id: nat, value: string, mintedAt: int, expiresAt: int)

  predicate Ordered(clock: int, t: Readings) {
    clock <= t.forCache <= t.forDedupe <= t.forArming
  }

  function Minted(request: Request, value: string, mintedAt: int, expiresAt: int): Token {
    Token(value, Label(request.scope), request.permissions, request.installation, mintedAt, expiresAt)
  }

  ghost predicate Enabled(sys: System, e: Event) {
    match e
    case AdmitEvent(id, request, times) => id !in sys.flights && Ordered(sys.clock, times)
    case RateEvent(_) => true
    case FailEvent(id, time) => id in sys.flights && sys.flights[id] < |sys.arms| && sys.clock <= time
    case SucceedEvent(id, value, mintedAt, _) =>
      id in sys.flights && sys.flights[id] < |sys.arms| && value != ""
  }

  function AdmitStep(c: Config, sys: System, id: nat, key: string, request: Request, t: Readings): System {
    if Admit(c, sys.fields, key, t).Admitted? then
      System(Armed(sys.fields, key, t.forArming), sys.arms + [Arm(key, request, t.forArming, None)],
             sys.flights[id := |sys.arms|], t.forArming)
    else sys.(clock := t.forArming)
  }

  function FailStep(sys: System, id: nat, time: int): System
    requires id in sys.flights && sys.flights[id] < |sys.arms|
  {
    var i := sys.flights[id];
    var arm := sys.arms[i];
    System(AfterFailure(sys.fields, arm.key, arm.at),
           sys.arms[i := arm.(failedAfter := Some(|sys.arms|))], sys.flights - {id}, time)
  }

  function SucceedStep(sys: System, id: nat, value: string, mintedAt: int, expiresAt: int): System
    requires id in sys.flights && sys.flights[id] < |sys.arms|
  {
    var arm := sys.arms[sys.flights[id]];
    System(AfterSuccess(sys.fields, arm.key, Minted(arm.request, value, mintedAt, expiresAt)),
           sys.arms, sys.flights - {id}, sys.clock)
  }

  ghost function Step(c: Config, sys: System, e: Event): System {
    if !Enabled(sys, e) then sys
    else match e
      case AdmitEvent(id, request, times) => AdmitStep(c, sys, id, CacheKey(request), request, times)
      case RateEvent(header) => sys.(fields := AfterRate(sys.fields, header))
      case FailEvent(id, time) => FailStep(sys, id, time)
      case SucceedEvent(id, value, mintedAt, expiresAt) => SucceedStep(sys, id, value, mintedAt, expiresAt)
  }

  ghost function Run(c: Config, sys: System, trace: seq<Event>): System {
    if trace == [] then sys else Step(c, Run(c, sys, trace[..|trace| - 1]), trace[|trace| - 1])
  }

  const NO_FIELDS := Fields(0, 0, false, map[], map[])

  predicate Initial(sys: System) {
    sys.fields == NO_FIELDS && sys.arms == [] && sys.flights == map[]
  }

  // ----- The dedupe window and the budget -----

  /** Mint `i` had not failed when mint `j` was admitted. */
  predicate StillStandingAt(sys: System, i: nat, j: nat)
    requires i < |sys.arms|
  {
    sys.arms[i].failedAfter.None? || sys.arms[i].failedAfter.value > j
  }

  predicate SameKey(sys: System, i: nat, j: nat)
    requires i < |sys.arms| && j < |sys.arms|
  {
    sys.arms[i].key == sys.arms[j].key
  }

  ghost predicate Spaced(c: Config, sys: System) {
    forall i, j :: 0 <= i < j < |sys.arms| && SameKey(sys, i, j) && StillStandingAt(sys, i, j) ==>
      sys.arms[j].at - sys.arms[i].at >= c.dedupeWindow
  }

  /** A mint that has not failed is remembered in the dedupe map, or its window has passed. */
  ghost predicate Guarded(c: Config, sys: System, i: nat)
    requires i < |sys.arms|
  {
    var key := sys.arms[i].key;
    || (key in sys.fields.dedupe && sys.arms[i].at <= sys.fields.dedupe[key])
    || sys.arms[i].at + c.dedupeWindow <= sys.clock
  }

  ghost predicate WindowInv(c: Config, sys: System) {
    && Spaced(c, sys)
    && (forall i :: 0 <= i < |sys.arms| ==> sys.arms[i].at <= sys.clock)
    && (forall i :: 0 <= i < |sys.arms| && sys.arms[i].failedAfter.None? ==> Guarded(c, sys, i))
    && (forall i :: 0 <= i < |sys.arms| && sys.arms[i].failedAfter.Some? ==> sys.arms[i].failedAfter.value <= |sys.arms|)
    && (forall id :: id in sys.flights ==>
          sys.flights[id] < |sys.arms| && sys.arms[sys.flights[id]].failedAfter.None?)
    && (forall a, b :: a in sys.flights && b in sys.flights && a != b ==> sys.flights[a] != sys.flights[b])
  }

  lemma AdmitKeepsWindow(c: Config, sys: System, id: nat, key: string, request: Request, t: Readings)
    requires c.dedupeWindow > 0 && WindowInv(c, sys) && id !in sys.flights && Ordered(sys.clock, t)
    ensures WindowInv(c, AdmitStep(c, sys, id, key, request, t))
  {
    var sys' := AdmitStep(c, sys, id, key, request, t);
    var n := |sys.arms|;
    assert forall i :: 0 <= i < n ==> sys'.arms[i] == sys.arms[i];
    forall i | 0 <= i < n && sys'.arms[i].failedAfter.None? ensures Guarded(c, sys', i) {
      assert Guarded(c, sys, i);
    }
    forall i, j | 0 <= i < j < |sys'.arms| && SameKey(sys', i, j) && StillStandingAt(sys', i, j)
      ensures sys'.arms[j].at - sys'.arms[i].at >= c.dedupeWindow
    {
      if j < n {
        assert SameKey(sys, i, j) && StillStandingAt(sys, i, j);
      } else {
        assert Guarded(c, sys, i);
      }
    }
  }

  lemma FailKeepsWindow(c: Config, sys: System, e: Event)
    requires c.dedupeWindow > 0 && WindowInv(c, sys) && Enabled(sys, e) && e.FailEvent?
    ensures WindowInv(c, Step(c, sys, e))
  {
    var sys' := Step(c, sys, e);
    var n := sys.flights[e.id];
    forall i | 0 <= i < |sys'.arms| && sys'.arms[i].failedAfter.None? ensures Guarded(c, sys', i) {
      assert i != n && sys'.arms[i] == sys.arms[i] && Guarded(c, sys, i);
      if SameKey(sys, i, n) {
        if i < n {
          assert StillStandingAt(sys, i, n);
        } else {
          assert SameKey(sys, n, i) && StillStandingAt(sys, n, i);
        }
      }
    }
    forall i, j | 0 <= i < j < |sys'.arms| && SameKey(sys', i, j) && StillStandingAt(sys', i, j)
      ensures sys'.arms[j].at - sys'.arms[i].at >= c.dedupeWindow
    {
      assert SameKey(sys, i, j) && StillStandingAt(sys, i, j);
    }
  }

  lemma {:induction false} RunKeepsWindow(c: Config, sys: System, trace: seq<Event>)
    requires c.dedupeWindow > 0 && WindowInv(c, sys)
    ensures WindowInv(c, Run(c, sys, trace))
  {
    if trace != [] {
      RunKeepsWindow(c, sys, trace[..|trace| - 1]);
      var before, e := Run(c, sys, trace[..|trace| - 1]), trace[|trace| - 1];
      if Enabled(before, e) {
        match e
        case AdmitEvent(id, request, t) => AdmitKeepsWindow(c, before, id, CacheKey(request), request, t);
        case FailEvent(_, _) => FailKeepsWindow(c, before, e);
        case _ =>
          var after := Step(c, before, e);
          assert after.arms == before.arms && after.fields.dedupe == before.fields.dedupe;
          forall i | 0 <= i < |after.arms| && after.arms[i].failedAfter.None? ensures Guarded(c, after, i) {
            assert Guarded(c, before, i);
          }
          forall i, j | 0 <= i < j < |after.arms| && SameKey(after, i, j) && StillStandingAt(after, i, j)
            ensures after.arms[j].at - after.arms[i].at >= c.dedupeWindow
          {
            assert SameKey(before, i, j) && StillStandingAt(before, i, j);
          }
      }
    }
  }

  /** In every interleaving, two mints of one cache key, the earlier of which had not failed when
      the later was admitted, are armed at least the window apart. */
  lemma WindowHolds(c: Config, sys: System, trace: seq<Event>)
    requires c.dedupeWindow > 0 && Initial(sys)
    ensures Spaced(c, Run(c, sys, trace))
  {
    RunKeepsWindow(c, sys, trace);
  }

  // ----- Whose entry the dedupe map holds -----

  /** No mint of the same key was admitted after mint `i`. */
  ghost predicate Latest(sys: System, i: nat)
    requires i < |sys.arms|
  {
    forall j :: i < j < |sys.arms| ==> !SameKey(sys, i, j)
  }

  predicate EntryRight(sys: System, i: nat)
    requires i < |sys.arms|
  {
    var key := sys.arms[i].key;
    if sys.arms[i].failedAfter.None? then key in sys.fields.dedupe && sys.fields.dedupe[key] == sys.arms[i].at
    else key !in sys.fields.dedupe
  }

  /** The entry of a key is always that of its latest mint, and goes when that one fails. */
  ghost predicate EntryInv(sys: System) {
    && (forall i :: 0 <= i < |sys.arms| && Latest(sys, i) ==> EntryRight(sys, i))
    && (forall k :: k in sys.fields.dedupe ==> exists i :: 0 <= i < |sys.arms| && sys.arms[i].key == k)
  }

  lemma {:induction false} LatestOf(sys: System, i: nat) returns (m: nat)
    requires i < |sys.arms|
    ensures i <= m < |sys.arms| && SameKey(sys, i, m) && Latest(sys, m)
    decreases |sys.arms| - i
  {
    if Latest(sys, i) {
      m := i;
    } else {
      var j :| i < j < |sys.arms| && SameKey(sys, i, j);
      m := LatestOf(sys, j);
    }
  }

  lemma FailureExactly(c: Config, sys: System, id: nat)
    requires c.dedupeWindow > 0 && WindowInv(c, sys) && EntryInv(sys) && id in sys.flights
    ensures var n := sys.flights[id];
      AfterFailure(sys.fields, sys.arms[n].key, sys.arms[n].at)
      == sys.fields.(dedupe := if Latest(sys, n) then sys.fields.dedupe - {sys.arms[n].key} else sys.fields.dedupe)
  {
    var n := sys.flights[id];
    var m := LatestOf(sys, n);
    assert EntryRight(sys, m);
    if n < m {
      assert !Latest(sys, n);
      assert StillStandingAt(sys, n, m) && SameKey(sys, n, m);
    }
  }

  /** Failing changes no key and no time, so it changes no mint's place among the others. */
  lemma LatestStable(sys: System, sys': System, i: nat)
    requires |sys.arms| == |sys'.arms| && i < |sys.arms|
    requires forall j :: 0 <= j < |sys.arms| ==> sys.arms[j].key == sys'.arms[j].key
    ensures Latest(sys, i) <==> Latest(sys', i)
  {
    forall j | i < j < |sys.arms| ensures SameKey(sys, i, j) <==> SameKey(sys', i, j) {
    }
  }

  lemma FailKeepsEntries(c: Config, sys: System, id: nat, time: int)
    requires c.dedupeWindow > 0 && WindowInv(c, sys) && EntryInv(sys) && id in sys.flights
    ensures EntryInv(FailStep(sys, id, time))
  {
    FailureExactly(c, sys, id);
    var sys' := FailStep(sys, id, time);
    var n := sys.flights[id];
    forall i | 0 <= i < |sys'.arms| && Latest(sys', i)
      ensures Latest(sys, i) && (i != n && SameKey(sys, i, n) ==> !Latest(sys, n))
    {
      LatestStable(sys, sys', i);
      if i < n {
        assert !SameKey(sys, i, n);
      } else if n < i && SameKey(sys, i, n) {
        assert SameKey(sys, n, i);
      }
    }
    forall k | k in sys'.fields.dedupe
      ensures exists i :: 0 <= i < |sys'.arms| && sys'.arms[i].key == k
    {
      var i :| 0 <= i < |sys.arms| && sys.arms[i].key == k;
      assert sys'.arms[i].key == k;
    }
  }

  lemma ArmingKeepsEntries(sys: System, sys': System, arm: Arm)
    requires EntryInv(sys) && arm.failedAfter.None?
    requires sys'.arms == sys.arms + [arm] && sys'.fields.dedupe == sys.fields.dedupe[arm.key := arm.at]
    ensures EntryInv(sys')
  {
    var n := |sys.arms|;
    forall i | 0 <= i < |sys'.arms| && Latest(sys', i) ensures EntryRight(sys', i) {
      if i < n {
        assert !SameKey(sys', i, n);
        forall j | i < j < n ensures !SameKey(sys, i, j) {
          assert !SameKey(sys', i, j);
        }
        assert EntryRight(sys, i);
      }
    }
    forall k | k in sys'.fields.dedupe ensures exists i :: 0 <= i < |sys'.arms| && sys'.arms[i].key == k {
      if k == arm.key {
        assert sys'.arms[n].key == k;
      } else {
        var i :| 0 <= i < n && sys.arms[i].key == k;
        assert sys'.arms[i].key == k;
      }
    }
  }

  /** Steps that leave the mints and the dedupe map alone leave the entries right. */
  lemma SameEntries(sys: System, sys': System)
    requires EntryInv(sys) && sys'.arms == sys.arms && sys'.fields.dedupe == sys.fields.dedupe
    ensures EntryInv(sys')
  {
    forall i | 0 <= i < |sys'.arms| && Latest(sys', i) ensures EntryRight(sys', i) {
      LatestStable(sys, sys', i);
      assert EntryRight(sys, i);
    }
  }

  lemma {:induction false} RunKeepsEntries(c: Config, sys: System, trace: seq<Event>)
    requires c.dedupeWindow > 0 && WindowInv(c, sys) && EntryInv(sys)
    ensures EntryInv(Run(c, sys, trace))
  {
    if trace != [] {
      RunKeepsEntries(c, sys, trace[..|trace| - 1]);
      RunKeepsWindow(c, sys, trace[..|trace| - 1]);
      var before, e := Run(c, sys, trace[..|trace| - 1]), trace[|trace| - 1];
      var after := Step(c, before, e);
      if after.arms == before.arms && after.fields.dedupe == before.fields.dedupe {
        SameEntries(before, after);
      } else if e.FailEvent? {
        FailKeepsEntries(c, before, e.id, e.time);
      } else {
        ArmingKeepsEntries(before, after, after.arms[|before.arms|]);
      }
    }
  }

  /** A failing mint removes only the entry it armed itself: it empties its key's entry exactly
      when no later mint of the key has been admitted, and touches nothing else. */
  lemma FailureRemovesOwnEntry(c: Config, sys: System, trace: seq<Event>, e: Event)
    requires c.dedupeWindow > 0 && Initial(sys)
    requires var now := Run(c, sys, trace); e.FailEvent? && Enabled(now, e)
    ensures var now := Run(c, sys, trace);
      var n := now.flights[e.id];
      var key := now.arms[n].key;
      && (Latest(now, n) ==> key in now.fields.dedupe && now.fields.dedupe[key] == now.arms[n].at)
      && Step(c, now, e).fields
         == now.fields.(dedupe := if Latest(now, n) then now.fields.dedupe - {key} else now.fields.dedupe)
  {
    RunKeepsWindow(c, sys, trace);
    RunKeepsEntries(c, sys, trace);
    FailureExactly(c, Run(c, sys, trace), e.id);
  }

  // ----- The call budget -----

  /** Calls are counted one for one, and never pass the budget. */
  lemma {:induction false} BudgetHolds(c: Config, sys: System, trace: seq<Event>)
    requires c.callBudget > 0 && Initial(sys)
    ensures var now := Run(c, sys, trace); now.fields.callsMade == |now.arms| <= c.callBudget
  {
    if trace != [] {
      BudgetHolds(c, sys, trace[..|trace| - 1]);
    }
  }

  // ----- The cache -----

  predicate CleanRequests(trace: seq<Event>) {
    forall i :: 0 <= i < |trace| && trace[i].AdmitEvent? ==> Clean(trace[i].request)
  }

  ghost predicate MintedFor(token: Token, request: Request) {
    && token.installation == request.installation
    && token.repo == Label(request.scope)
    && token.permissions == request.permissions
  }

  ghost predicate KeyInv(arm: Arm) {
    Clean(arm.request) && arm.key == CacheKey(arm.request)
  }

  ghost predicate CacheInv(sys: System) {
    && (forall i :: 0 <= i < |sys.arms| ==> KeyInv(sys.arms[i]))
    && (forall k :: k in sys.fields.tokens ==> exists i ::
          0 <= i < |sys.arms| && sys.arms[i].key == k && MintedFor(sys.fields.tokens[k], sys.arms[i].request))
  }

  lemma SucceedKeepsCache(sys: System, e: Event)
    requires CacheInv(sys) && e.SucceedEvent? && Enabled(sys, e)
    ensures CacheInv(SucceedStep(sys, e.id, e.value, e.mintedAt, e.expiresAt))
  {
    var sys' := SucceedStep(sys, e.id, e.value, e.mintedAt, e.expiresAt);
    var n := sys.flights[e.id];
    assert MintedFor(sys'.fields.tokens[sys'.arms[n].key], sys'.arms[n].request);
  }

  lemma CacheCarries(sys: System, sys': System)
    requires CacheInv(sys) && sys'.fields.tokens == sys.fields.tokens && |sys.arms| <= |sys'.arms|
    requires forall i :: 0 <= i < |sys.arms| ==>
      sys'.arms[i].key == sys.arms[i].key && sys'.arms[i].request == sys.arms[i].request
    requires forall i :: |sys.arms| <= i < |sys'.arms| ==> KeyInv(sys'.arms[i])
    ensures CacheInv(sys')
  {
    forall i | 0 <= i < |sys'.arms| ensures KeyInv(sys'.arms[i]) {
      if i < |sys.arms| {
        assert KeyInv(sys.arms[i]);
      }
    }
    forall k | k in sys.fields.tokens
      ensures exists i ::
        0 <= i < |sys'.arms| && sys'.arms[i].key == k && MintedFor(sys'.fields.tokens[k], sys'.arms[i].request)
    {
      var i :| 0 <= i < |sys.arms| && sys.arms[i].key == k && MintedFor(sys.fields.tokens[k], sys.arms[i].request);
      assert sys'.arms[i].key == k;
    }
  }

  lemma AdmitCarries(c: Config, sys: System, id: nat, key: string, request: Request, t: Readings)
    requires CacheInv(sys) && KeyInv(Arm(key, request, t.forArming, None))
    ensures CacheInv(AdmitStep(c, sys, id, key, request, t))
  {
    CacheCarries(sys, AdmitStep(c, sys, id, key, request, t));
  }

  lemma StepKeepsCache(c: Config, sys: System, e: Event)
    requires CacheInv(sys) && (e.AdmitEvent? ==> Clean(e.request))
    ensures CacheInv(Step(c, sys, e))
  {
    if e.SucceedEvent? && Enabled(sys, e) {
      SucceedKeepsCache(sys, e);
    } else if e.AdmitEvent? && Enabled(sys, e) {
      AdmitCarries(c, sys, e.id, CacheKey(e.request), e.request, e.times);
    } else {
      OtherStepCarries(c, sys, e);
    }
  }

  lemma OtherStepCarries(c: Config, sys: System, e: Event)
    requires CacheInv(sys) && (e.SucceedEvent? || e.AdmitEvent? ==> !Enabled(sys, e))
    ensures CacheInv(Step(c, sys, e))
  {
    if e.FailEvent? && Enabled(sys, e) {
      FailCarries(sys, e.id, e.time);
    } else {
      CacheCarries(sys, Step(c, sys, e));
    }
  }

  lemma FailCarries(sys: System, id: nat, time: int)
    requires CacheInv(sys) && id in sys.flights && sys.flights[id] < |sys.arms|
    ensures CacheInv(FailStep(sys, id, time))
  {
    CacheCarries(sys, FailStep(sys, id, time));
  }

  lemma {:induction false} RunKeepsCache(c: Config, sys: System, trace: seq<Event>)
    requires Initial(sys) && CleanRequests(trace)
    ensures CacheInv(Run(c, sys, trace))
  {
    if trace != [] {
      RunKeepsCache(c, sys, trace[..|trace| - 1]);
      StepKeepsCache(c, Run(c, sys, trace[..|trace| - 1]), trace[|trace| - 1]);
    }
  }

  /** Every cache hit of every run serves a token minted for exactly the installation, label and
      permissions asked for, with more than a minute of life left. */
  lemma HitIsExact(c: Config, sys: System, trace: seq<Event>, request: Request, times: Readings)
    requires Initial(sys) && CleanRequests(trace) && Clean(request)
    requires Admit(c, Run(c, sys, trace).fields, CacheKey(request), times).Hit?
    ensures var token := Admit(c, Run(c, sys, trace).fields, CacheKey(request), times).token;
      MintedFor(token, request) && token.expiresAt - times.forCache > MINUTE
  {
    RunKeepsCache(c, sys, trace);
    var now := Run(c, sys, trace);
    var key := CacheKey(request);
    var i :| 0 <= i < |now.arms| && now.arms[i].key == key && MintedFor(now.fields.tokens[key], now.arms[i].request);
    assert KeyInv(now.arms[i]);
    CacheKeyInjective(now.arms[i].request, request);
  }

  // ----- The client -----

  /** What a mint keeps in local variables while the mutex is free. */
  datatype Call = Call(cacheKey: string, request: Request, armedAt: int)

  datatype Reply = Failed | Created(token: string, expiresAt: int)

  datatype Code = InvalidConfig | InvalidPermissions | DuplicateRead | CallBudgetExhausted | RateLimited | MintFailed

  datatype Result = Served(token: Token) | Refused(code: Code)

  /** The mints between their critical sections, as they remember themselves. */
  predicate Matches(sys: System, calls: map<nat, Call>) {
    && sys.flights.Keys == calls.Keys
    && forall id :: id in calls ==>
         && sys.flights[id] < |sys.arms|
         && var arm := sys.arms[sys.flights[id]];
            calls[id] == Call(arm.key, arm.request, arm.at)
  }

  lemma FailMatches(c: Config, sys: System, calls: map<nat, Call>, id: nat, time: int)
    requires Matches(sys, calls) && id in calls && sys.clock <= time
    ensures var after := Step(c, sys, FailEvent(id, time));
      && Matches(after, calls - {id}) && after.clock == time
      && after.fields == AfterFailure(sys.fields, calls[id].cacheKey, calls[id].armedAt)
  {
  }

  lemma SucceedMatches(c: Config, sys: System, calls: map<nat, Call>, id: nat, value: string, mintedAt: int,
                       expiresAt: int)
    requires Matches(sys, calls) && id in calls && value != ""
    ensures var after := Step(c, sys, SucceedEvent(id, value, mintedAt, expiresAt));
      && Matches(after, calls - {id}) && after.clock == sys.clock
      && after.fields
      == AfterSuccess(sys.fields, calls[id].cacheKey, Minted(calls[id].request, value, mintedAt, expiresAt))
  {
  }

  method ComputeCacheKey(request: Request) returns (key: string)
    ensures key == CacheKey(request)
  {
    var permissions := PermissionsKey(request.permissions);
    key := FormatInt(request.installation) + "|" + Label(request.scope) + "|" + permissions;
  }

  /** `calls` and `clock` stand for the goroutines' own state; `sys` and `trace` relate every
      critical section entered to a step of the interleaved system. */
  class Client {
    const config: Config
    var callsMade: int
    var rateRemaining: int
    var rateKnown: bool
    var dedupe: map<string, int>
    var tokens: map<string, Token>

    var calls: map<nat, Call>
    var clock: int
    ghost const start: System
    ghost var sys: System
    ghost var trace: seq<Event>

    function Snapshot(): Fields
      reads this
    {
      Fields(callsMade, rateRemaining, rateKnown, dedupe, tokens)
    }

    ghost predicate Valid()
      reads this
    {
      && sys == Run(config, start, trace)
      && sys.fields == Snapshot() && sys.clock == clock && Matches(sys, calls)
    }

    constructor (given: Config, now: int)
      ensures Valid() && config == Normalise(given) && Initial(start) && trace == []
      ensures Snapshot() == NO_FIELDS
    {
      config := Normalise(given);
      callsMade, rateRemaining, rateKnown, dedupe, tokens := 0, 0, false, map[], map[];
      calls, clock := map[], now;
      start := System(NO_FIELDS, [], map[], now);
      sys := System(NO_FIELDS, [], map[], now);
      trace := [];
    }

    /** Moves the ghost system along with a critical section. */
    ghost method Record(e: Event)
      requires sys == Run(config, start, trace)
      modifies this`sys, this`trace
      ensures sys == Step(config, old(sys), e) && trace == old(trace) + [e]
      ensures sys == Run(config, start, trace)
    {
      assert (trace + [e])[..|trace|] == trace;
      sys, trace := Step(config, sys, e), trace + [e];
    }

    /** The first critical section of mint: the tests, in their order. */
    method Decide(cacheKey: string, t: Readings) returns (r: Admission)
      ensures r == Admit(config, Snapshot(), cacheKey, t)
    {
      if cacheKey in tokens && !Expired(tokens[cacheKey], t.forCache, MINUTE) {
        return Hit(tokens[cacheKey]);
      }
      if config.dedupeWindow > 0 {
        if cacheKey in dedupe && t.forDedupe - dedupe[cacheKey] < config.dedupeWindow {
          return Duplicate;
        }
      }
      if callsMade >= config.callBudget {
        return OverBudget;
      }
      if rateKnown && rateRemaining < config.rateLimitFloor {
        return BelowFloor;
      }
      r := Admitted;
    }

    /** And what follows them. */
    method TryAdmit(id: nat, request: Request, cacheKey: string, t: Readings) returns (r: Admission)
      requires Valid() && id !in calls && Ordered(clock, t) && cacheKey == CacheKey(request)
      modifies this
      ensures Valid() && trace == old(trace) + [AdmitEvent(id, request, t)]
      ensures r == Admit(config, old(Snapshot()), cacheKey, t)
      ensures Snapshot() == AfterAdmit(config, old(Snapshot()), cacheKey, t)
      ensures calls == if r.Admitted? then old(calls)[id := Call(cacheKey, request, t.forArming)] else old(calls)
    {
      r := Decide(cacheKey, t);
      Record(AdmitEvent(id, request, t));
      clock := t.forArming;
      if r.Admitted? {
        dedupe := dedupe[cacheKey := t.forArming];
        callsMade := callsMade + 1;
        calls := calls[id := Call(cacheKey, request, t.forArming)];
      }
    }

    method RecordRateLimit(header: string)
      requires Valid()
      modifies this
      ensures Valid() && trace == old(trace) + [RateEvent(header)]
      ensures Snapshot() == AfterRate(old(Snapshot()), header) && calls == old(calls) && clock == old(clock)
    {
      Record(RateEvent(header));
      if header == "" {
        return;
      }
      var n := ParseInt(header);
      if n.None? {
        return;
      }
      rateRemaining := n.value;
      rateKnown := true;
    }

    /** The critical section after a failed network call. */
    method ClearOwnEntry(id: nat, time: int)
      requires Valid() && id in calls && clock <= time
      modifies this
      ensures Valid() && trace == old(trace) + [FailEvent(id, time)]
      ensures Snapshot() == AfterFailure(old(Snapshot()), old(calls)[id].cacheKey, old(calls)[id].armedAt)
      ensures calls == old(calls) - {id}
    {
      var call := calls[id];
      FailMatches(config, sys, calls, id, time);
      Record(FailEvent(id, time));
      Forget(call.cacheKey, call.armedAt);
      calls, clock := calls - {id}, time;
    }

    /** The dedupe entry goes if it is the one that was armed at this time. */
    method Forget(cacheKey: string, armedAt: int)
      modifies this`dedupe
      ensures Snapshot() == AfterFailure(old(Snapshot()), cacheKey, armedAt)
    {
      if cacheKey in dedupe && dedupe[cacheKey] == armedAt {
        dedupe := dedupe - {cacheKey};
      }
    }

    /** The critical section after a successful one; `mintedAt` was read before the lock was taken. */
    method StoreToken(id: nat, value: string, mintedAt: int, expiresAt: int) returns (token: Token)
      requires Valid() && id in calls && value != ""
      modifies this
      ensures Valid() && trace == old(trace) + [SucceedEvent(id, value, mintedAt, expiresAt)]
      ensures token == Minted(old(calls)[id].request, value, mintedAt, expiresAt)
      ensures Snapshot() == AfterSuccess(old(Snapshot()), old(calls)[id].cacheKey, token)
      ensures calls == old(calls) - {id}
    {
      var call := calls[id];
      SucceedMatches(config, sys, calls, id, value, mintedAt, expiresAt);
      Record(SucceedEvent(id, value, mintedAt, expiresAt));
      token := Minted(call.request, value, mintedAt, expiresAt);
      tokens := tokens[call.cacheKey := token];
      calls := calls - {id};
    }

    method Tick() returns (t: Readings)
      ensures Ordered(clock, t)
    {
      var a: nat := Any();
      var b: nat := Any();
      var c: nat := Any();
      t := Readings(clock + a, clock + a + b, clock + a + b + c);
    }

    /** Every other goroutine: any number of critical sections, in any order, with any replies. */
    method Others(me: nat)
      requires Valid()
      modifies this
      ensures Valid() && old(trace) <= trace
      ensures me in calls <==> me in old(calls)
      ensures me in calls ==> calls[me] == old(calls)[me]
    {
      var steps: nat := Any();
      while steps > 0
        invariant Valid() && old(trace) <= trace
        invariant me in calls <==> me in old(calls)
        invariant me in calls ==> calls[me] == old(calls)[me]
      {
        var id: nat := Any();
        var kind: nat := Any();
        var t := Tick();
        if kind == 0 && id != me && id !in calls {
          var request: Request := Any();
          var key := ComputeCacheKey(request);
          var _ := TryAdmit(id, request, key, t);
        } else if kind == 1 {
          var header: string := Any();
          RecordRateLimit(header);
        } else if kind == 2 && id != me && id in calls {
          ClearOwnEntry(id, t.forArming);
        } else if id != me && id in calls {
          var value: string := Any();
          var mintedAt: int := Any();
          var expiresAt: int := Any();
          if value != "" {
            var _ := StoreToken(id, value, mintedAt, expiresAt);
          }
        }
        steps := steps - 1;
      }
    }

    /** MintInstallationToken, MintInstallationTokenForOwner and mint.  Between its critical
        sections the other goroutines run; a token it serves is always one minted for this request. */
    method Mint(id: nat, request: Request) returns (result: Result)
      requires Valid() && Initial(start) && id !in calls
      modifies this
      ensures Valid() && old(trace) <= trace && id !in calls
      ensures Blank(request.scope.name) || request.installation <= 0 ==> result == Refused(InvalidConfig)
      ensures !Blank(request.scope.name) && request.installation > 0 && request.permissions == map[] ==>
        result == Refused(InvalidPermissions)
      ensures result.Served? && CleanRequests(trace) && Clean(request) ==> MintedFor(result.token, request)
    {
      if Blank(request.scope.name) || request.installation <= 0 {
        return Refused(InvalidConfig);
      }
      if |request.permissions| == 0 {
        return Refused(InvalidPermissions);
      }
      var cacheKey := ComputeCacheKey(request);
      Others(id);
      ghost var before := trace;
      var t := Tick();
      var admission := TryAdmit(id, request, cacheKey, t);
      match admission
      case Hit(token) =>
        result := Served(token);
        if CleanRequests(trace) && Clean(request) {
          assert CleanRequests(before) by {
            assert forall i :: 0 <= i < |before| ==> before[i] == trace[i];
          }
          HitIsExact(config, start, before, request, t);
        }
      case Duplicate => result := Refused(DuplicateRead);
      case OverBudget => result := Refused(CallBudgetExhausted);
      case BelowFloor => result := Refused(RateLimited);
      case Admitted =>
        result := MintFresh(id, request);
    }

    /** The network call: others run meanwhile, and an answer's rate header is recorded. */
    method Await(id: nat) returns (reply: Option<Reply>)
      requires Valid() && id in calls
      modifies this
      ensures Valid() && old(trace) <= trace && id in calls && calls[id] == old(calls)[id]
    {
      Others(id);
      var answered := Any();
      if !answered {
        return None;
      }
      var header: string := Any();
      RecordRateLimit(header);
      Others(id);
      var answer: Reply := Any();
      reply := Some(answer);
    }

    /** The network call and the critical section that ends it. */
    method MintFresh(id: nat, request: Request) returns (result: Result)
      requires Valid() && id in calls && calls[id].request == request
      modifies this
      ensures Valid() && old(trace) < trace && id !in calls
      ensures result.Served? ==> MintedFor(result.token, request) && result.token.value != ""
      ensures !result.Served? ==> result == Refused(MintFailed)
    {
      var reply := Await(id);
      var t := Tick();
      if reply.Some? && reply.value.Created? && reply.value.token != "" {
        Others(id);
        var token := StoreToken(id, reply.value.token, t.forArming, reply.value.expiresAt);
        return Served(token);
      }
      ClearOwnEntry(id, t.forArming);
      result := Refused(MintFailed);
    }
  }
}
