/**
 The refresh_tokens table, the statements that change it, and the protocol in which any number of
 service calls interleave between those statements.

 A token row belongs to a family (one signed-in session). Rotation revokes the presented row and
 inserts its successor in the same family in one statement; presenting a revoked row, or losing the
 race to rotate, revokes the whole family.
 */
module RefreshTokens {
  import opened Wrappers

  // Row ids, family ids, user ids and token hashes are only ever compared for equality.
  type Id = nat
  type Hash = nat
  type Time = int

  datatype Client = Client(userAgent: string, ip: string)

  datatype Token = Token(
    user: Id, hash: Hash, family: Id, expiresAt: Time,
    revokedAt: Option<Time>, replacedBy: Option<Id>,
    createdAt: Time, updatedAt: Time, client: Client, lastUsedAt: Option<Time>)
  {
    predicate Live() {
      revokedAt.None?
    }

    /** NULL only in rows older than the column. */
    function LastUse(): Time {
      if lastUsedAt.Some? then lastUsedAt.value else 0
    }

    predicate Active(now: Time) {
      Live() && expiresAt > now
    }

    /** The row without the columns an UPDATE may change. */
    function Identity(): Token {
      this.(revokedAt := None, replacedBy := None, updatedAt := 0)
    }

    /** What the active-sessions list shows about the family, apart from the time of last use. */
    function Session(): (Id, Id, Time, Client) {
      (user, family, createdAt, client)
    }
  }

  type Table = map<Id, Token>

  // ----- The statements -----

  /** newRefreshTokenInput: a fresh session starts now, a rotated one keeps its start time. */
  function Mint(user: Id, family: Id, client: Client, createdAt: Option<Time>,
                hash: Hash, now: Time, ttl: Time): Token
  {
    Token(user, hash, family, now + ttl, None, None,
          if createdAt.Some? then createdAt.value else now, now, client, Some(now))
  }

  /** The WHERE clauses of the revoking statements; each also requires revoked_at IS NULL. */
  datatype Scope =
    | ByHash(hash: Hash)
    | OfFamily(family: Id)
    | OfUser(user: Id)
    | OfUserExcept(user: Id, family: Id)
    | OneSession(user: Id, family: Id, dbNow: Time)

  predicate InScope(scope: Scope, row: Token) {
    match scope
    case ByHash(hash) => row.hash == hash
    case OfFamily(family) => row.family == family
    case OfUser(user) => row.user == user
    case OfUserExcept(user, family) => row.user == user && row.family != family
    case OneSession(user, family, dbNow) => row.user == user && row.family == family && row.expiresAt > dbNow
  }

  function Revoke(table: Table, scope: Scope, at: Time): Table {
    map id | id in table ::
      if table[id].Live() && InScope(scope, table[id])
      then table[id].(revokedAt := Some(at), updatedAt := at)
      else table[id]
  }

  /** RotateRefreshToken; None when the CTE revoked nothing, so nothing is inserted. */
  function Rotate(table: Table, prior: Id, next: Id, input: Token, at: Time): Option<Table> {
    if prior in table && table[prior].Live() then
      Some(table[prior := table[prior].(revokedAt := Some(at), replacedBy := Some(next), updatedAt := at)]
                [next := input])
    else
      None
  }

  function Purge(table: Table, dbNow: Time): Table {
    map id | id in table && table[id].expiresAt >= dbNow :: table[id]
  }

  /** GetRefreshTokenByHash; token_hash is UNIQUE. */
  ghost function Find(table: Table, hash: Hash): Option<Id> {
    if exists id :: id in table && table[id].hash == hash then
      var id :| id in table && table[id].hash == hash;
      Some(id)
    else
      None
  }

  /** No row of the family is live: nothing is left to rotate. */
  ghost predicate Dead(table: Table, family: Id) {
    forall id :: id in table && table[id].family == family ==> !table[id].Live()
  }

  // ----- Service calls in flight -----

  datatype UserStatus = NoSuchUser | DisabledUser | ActiveUser

  /** How a Refresh call returned. Every case but Disabled and Session is ErrInvalidToken. */
  datatype Outcome =
    | NotFound
    | Reused(family: Id)
    | Expired
    | UserMissing
    | UserDisabled
    | Conflict(family: Id)
    | Session(prior: Id, next: Id)

  /** Where a Refresh call stands between two statements. */
  datatype Phase =
    | Looked(prior: Id, row: Token)
    | Reusing(family: Id, now: Time)
    | Checking(prior: Id, row: Token, now: Time)
    | Rotating(prior: Id, row: Token, now: Time)
    | Conflicted(family: Id, now: Time)
    | Returned(outcome: Outcome)

  datatype Call = Call(hash: Hash, phase: Phase)

  /** The table, the clock and the calls in flight, followed by two pure records of the past that no
      statement reads: every row as it was inserted, and each family's rows in insertion order. */
  datatype State = State(
    tokens: Table, clock: Time, ttl: Time, calls: map<nat, Call>,
    log: Table, chains: map<Id, seq<Id>>)

  datatype Event =
    | Tick(to: Time)
    | SignIn(id: Id, user: Id, family: Id, client: Client, hash: Hash, mintedAt: Time)
    | Lookup(call: nat, hash: Hash)
    | Decide(call: nat)
    | CheckUser(call: nat, status: UserStatus)
    | TryRotate(call: nat, next: Id, hash: Hash, mintedAt: Time)
    | RevokeFamily(call: nat)
    | RevokeStatement(scope: Scope, at: Time)
    | PurgeStatement

  /** UUIDs and hashes never collide with anything ever inserted. */
  ghost predicate Fresh(s: State, id: Id, hash: Hash) {
    id !in s.log && forall other :: other in s.log ==> s.log[other].hash != hash
  }

  ghost predicate Enabled(s: State, e: Event) {
    match e
    case Tick(to) => to >= s.clock
    case SignIn(id, _, family, _, hash, mintedAt) =>
      Fresh(s, id, hash) && family !in s.chains && mintedAt <= s.clock
    case Lookup(call, _) => call !in s.calls
    case Decide(call) => call in s.calls && s.calls[call].phase.Looked?
    case CheckUser(call, _) => call in s.calls && s.calls[call].phase.Checking?
    case TryRotate(call, next, hash, mintedAt) =>
      && call in s.calls && s.calls[call].phase.Rotating?
      && Fresh(s, next, hash) && s.calls[call].phase.now <= mintedAt <= s.clock
    case RevokeFamily(call) =>
      call in s.calls && (s.calls[call].phase.Reusing? || s.calls[call].phase.Conflicted?)
    case RevokeStatement(_, _) => true
    case PurgeStatement => true
  }

  function Advance(s: State, call: nat, phase: Phase): State
    requires call in s.calls
  {
    s.(calls := s.calls[call := Call(s.calls[call].hash, phase)])
  }

  function Insert(s: State, id: Id, row: Token, chain: seq<Id>): State {
    s.(tokens := s.tokens[id := row], log := s.log[id := row], chains := s.chains[row.family := chain])
  }

  ghost function DoLookup(s: State, call: nat, hash: Hash): State {
    var phase := match Find(s.tokens, hash)
      case None => Returned(NotFound)
      case Some(id) => Looked(id, s.tokens[id]);
    s.(calls := s.calls[call := Call(hash, phase)])
  }

  function DoDecide(s: State, call: nat): State
    requires call in s.calls && s.calls[call].phase.Looked?
  {
    var Looked(prior, row) := s.calls[call].phase;
    Advance(s, call,
      if !row.Live() then Reusing(row.family, s.clock)
      else if row.expiresAt <= s.clock then Returned(Expired)
      else Checking(prior, row, s.clock))
  }

  function DoCheckUser(s: State, call: nat, status: UserStatus): State
    requires call in s.calls && s.calls[call].phase.Checking?
  {
    var Checking(prior, row, now) := s.calls[call].phase;
    Advance(s, call,
      match status
      case NoSuchUser => Returned(UserMissing)
      case DisabledUser => Returned(UserDisabled)
      case ActiveUser => Rotating(prior, row, now))
  }

  /** The row rotateSession asks for: same user, family, device and start time. */
  function Carried(row: Token, hash: Hash, mintedAt: Time, ttl: Time): Token {
    Mint(row.user, row.family, row.client, Some(row.createdAt), hash, mintedAt, ttl)
  }

  function DoRotate(s: State, call: nat, next: Id, hash: Hash, mintedAt: Time): State
    requires call in s.calls && s.calls[call].phase.Rotating?
  {
    var Rotating(prior, row, now) := s.calls[call].phase;
    var input := Carried(row, hash, mintedAt, s.ttl);
    match Rotate(s.tokens, prior, next, input, now)
    case None => Advance(s, call, Conflicted(row.family, now))
    case Some(tokens) =>
      var chain := if row.family in s.chains then s.chains[row.family] else [];
      Advance(Insert(s, next, input, chain + [next]).(tokens := tokens), call, Returned(Session(prior, next)))
  }

  function DoRevokeFamily(s: State, call: nat): State
    requires call in s.calls && (s.calls[call].phase.Reusing? || s.calls[call].phase.Conflicted?)
  {
    var phase := s.calls[call].phase;
    Advance(s, call, Returned(if phase.Reusing? then Reused(phase.family) else Conflict(phase.family)))
      .(tokens := Revoke(s.tokens, OfFamily(phase.family), phase.now))
  }

  ghost function Apply(s: State, e: Event): State
    requires Enabled(s, e)
  {
    match e
    case Tick(to) => s.(clock := to)
    case SignIn(id, user, family, client, hash, mintedAt) =>
      Insert(s, id, Mint(user, family, client, None, hash, mintedAt, s.ttl), [id])
    case Lookup(call, hash) => DoLookup(s, call, hash)
    case Decide(call) => DoDecide(s, call)
    case CheckUser(call, status) => DoCheckUser(s, call, status)
    case TryRotate(call, next, hash, mintedAt) => DoRotate(s, call, next, hash, mintedAt)
    case RevokeFamily(call) => DoRevokeFamily(s, call)
    case RevokeStatement(scope, at) => s.(tokens := Revoke(s.tokens, scope, at))
    case PurgeStatement => s.(tokens := Purge(s.tokens, s.clock))
  }

  // ----- Runs -----

  ghost predicate ValidRun(s: State, run: seq<Event>)
    decreases |run|
  {
    run == [] || (Enabled(s, run[0]) && ValidRun(Apply(s, run[0]), run[1..]))
  }

  ghost function Exec(s: State, run: seq<Event>): State
    requires ValidRun(s, run)
    decreases |run|
  {
    if run == [] then s else Exec(Apply(s, run[0]), run[1..])
  }

  ghost predicate Init(s: State) {
    s.tokens == map[] && s.calls == map[] && s.log == map[] && s.chains == map[]
  }

  // ----- The invariant -----

  /** Stored rows are inserted rows, up to the columns an UPDATE may change. */
  ghost predicate LogOk(tokens: Table, log: Table) {
    && (forall id :: id in tokens ==> id in log && tokens[id].Identity() == log[id].Identity())
    && (forall a, b :: a in log && b in log && log[a].hash == log[b].hash ==> a == b)
  }

  ghost predicate TimesOk(log: Table, ttl: Time, clock: Time) {
    forall id :: id in log ==> log[id].expiresAt == log[id].LastUse() + ttl && log[id].LastUse() <= clock
  }

  /** All rows ever inserted in one family, oldest first. */
  ghost predicate ChainOk(log: Table, family: Id, chain: seq<Id>) {
    && |chain| > 0
    && (forall i :: 0 <= i < |chain| ==> chain[i] in log && log[chain[i]].family == family)
    && (forall i, j :: 0 <= i < j < |chain| ==>
         && chain[i] != chain[j]
         && log[chain[i]].Session() == log[chain[j]].Session()
         && log[chain[i]].expiresAt <= log[chain[j]].expiresAt)
  }

  /** The rows of one family that are still stored: a suffix of its chain, each linked to the next,
      all but the last revoked. */
  ghost predicate LinksOk(tokens: Table, chain: seq<Id>) {
    && (forall i, j :: 0 <= i < j < |chain| && chain[i] in tokens ==>
         && chain[j] in tokens
         && !tokens[chain[i]].Live()
         && (j == i + 1 ==> tokens[chain[i]].replacedBy == Some(chain[j])))
    && (|chain| > 0 && chain[|chain| - 1] in tokens ==> tokens[chain[|chain| - 1]].replacedBy == None)
  }

  ghost predicate ChainsOk(log: Table, chains: map<Id, seq<Id>>) {
    && (forall f :: f in chains ==> ChainOk(log, f, chains[f]))
    && (forall id :: id in log ==> log[id].family in chains && id in chains[log[id].family])
  }

  ghost predicate AllLinksOk(tokens: Table, chains: map<Id, seq<Id>>) {
    forall f :: f in chains ==> LinksOk(tokens, chains[f])
  }

  ghost predicate Presented(log: Table, hash: Hash, prior: Id, row: Token) {
    prior in log && log[prior].hash == hash && row.Identity() == log[prior].Identity()
  }

  /** next was inserted by rotating prior. */
  ghost predicate Successor(log: Table, chains: map<Id, seq<Id>>, prior: Id, next: Id) {
    && prior in log && next in log && log[prior].family in chains
    && Adjacent(chains[log[prior].family], prior, next)
  }

  ghost predicate Adjacent(chain: seq<Id>, prior: Id, next: Id) {
    exists i :: 0 < i < |chain| && chain[i - 1] == prior && chain[i] == next
  }

  /** A family's last row is gone or revoked; by LinksOk no earlier row is live either. */
  predicate Ended(tokens: Table, chains: map<Id, seq<Id>>, f: Id) {
    && f in chains && |chains[f]| > 0
    && var last := chains[f][|chains[f]| - 1]; (last in tokens ==> !tokens[last].Live())
  }

  predicate GotSession(call: Call) {
    call.phase.Returned? && call.phase.outcome.Session?
  }

  ghost predicate RowOk(s: State, hash: Hash, prior: Id, row: Token, now: Time) {
    Presented(s.log, hash, prior, row) && row.LastUse() <= now <= s.clock
  }

  ghost predicate CallOk(s: State, call: Call) {
    match call.phase
    case Looked(prior, row) => Presented(s.log, call.hash, prior, row)
    case Reusing(f, _) => f in s.chains
    case Checking(prior, row, now) => RowOk(s, call.hash, prior, row, now)
    case Rotating(prior, row, now) => RowOk(s, call.hash, prior, row, now)
    case Conflicted(f, _) => f in s.chains
    case Returned(Reused(f)) => Ended(s.tokens, s.chains, f)
    case Returned(Conflict(f)) => Ended(s.tokens, s.chains, f)
    case Returned(Session(prior, next)) =>
      Successor(s.log, s.chains, prior, next) && s.log[prior].hash == call.hash
    case Returned(_) => true
  }

  ghost predicate CallsOk(s: State) {
    && (forall k :: k in s.calls ==> CallOk(s, s.calls[k]))
    && (forall a, b ::
         (a in s.calls && b in s.calls && a != b && GotSession(s.calls[a]) && GotSession(s.calls[b])) ==>
         s.calls[a].phase.outcome.next != s.calls[b].phase.outcome.next)
  }

  ghost predicate TableOk(s: State) {
    && LogOk(s.tokens, s.log)
    && TimesOk(s.log, s.ttl, s.clock)
    && ChainsOk(s.log, s.chains)
    && AllLinksOk(s.tokens, s.chains)
  }

  ghost predicate Inv(s: State) {
    TableOk(s) && CallsOk(s)
  }

  /** Two states of one run: the records of the past only grow, and a family without a live row
      never continues. */
  ghost predicate Extends(s: State, t: State) {
    && s.ttl == t.ttl && s.clock <= t.clock
    && LogGrows(s.log, t.log)
    && ChainsGrow(s.chains, t.chains)
    && EndedStays(s, t)
  }

  ghost predicate LogGrows(log: Table, bigger: Table) {
    forall id :: id in log ==> id in bigger && bigger[id] == log[id]
  }

  ghost predicate ChainsGrow(chains: map<Id, seq<Id>>, bigger: map<Id, seq<Id>>) {
    forall f :: f in chains ==> f in bigger && chains[f] <= bigger[f]
  }

  ghost predicate EndedStays(s: State, t: State) {
    forall f :: Ended(s.tokens, s.chains, f) ==> Ended(t.tokens, t.chains, f) && t.chains[f] == s.chains[f]
  }

  // ----- What inserting a row keeps -----

  lemma ChainOkGrows(log: Table, bigger: Table, f: Id, chain: seq<Id>)
    requires ChainOk(log, f, chain) && LogGrows(log, bigger)
    ensures ChainOk(bigger, f, chain)
  {
  }

  lemma InsertKeepsChains(log: Table, chains: map<Id, seq<Id>>, id: Id, row: Token, chain: seq<Id>)
    requires ChainsOk(log, chains) && id !in log
    requires ChainOk(log[id := row], row.family, chain) && id in chain
    requires row.family in chains ==> chains[row.family] <= chain
    ensures ChainsOk(log[id := row], chains[row.family := chain])
    ensures ChainsGrow(chains, chains[row.family := chain])
  {
    forall f | f in chains && f != row.family ensures ChainOk(log[id := row], f, chains[f]) {
      ChainOkGrows(log, log[id := row], f, chains[f]);
    }
    forall other | other in log && log[other].family == row.family ensures other in chain {
      assert other in chains[row.family];
    }
  }

  lemma ExtendedChainOk(log: Table, f: Id, chain: seq<Id>, next: Id, input: Token)
    requires ChainOk(log, f, chain) && next !in log && input.family == f
    requires log[chain[|chain| - 1]].Session() == input.Session()
    requires log[chain[|chain| - 1]].expiresAt <= input.expiresAt
    ensures ChainOk(log[next := input], f, chain + [next])
  {
    var last := |chain| - 1;
    forall i | 0 <= i < |chain|
      ensures log[chain[i]].Session() == input.Session() && log[chain[i]].expiresAt <= input.expiresAt
    {
      assert i < last ==> log[chain[i]].Session() == log[chain[last]].Session();
    }
  }

  lemma LinksOkSame(tokens: Table, after: Table, chain: seq<Id>)
    requires LinksOk(tokens, chain)
    requires forall i :: 0 <= i < |chain| ==>
      (chain[i] in after <==> chain[i] in tokens) && (chain[i] in tokens ==> after[chain[i]] == tokens[chain[i]])
    ensures LinksOk(after, chain)
  {
  }

  lemma ExtendedLinksOk(tokens: Table, chain: seq<Id>, next: Id, input: Token, at: Time)
    requires |chain| > 0 && LinksOk(tokens, chain) && next !in chain && input.replacedBy == None
    requires forall i, j :: 0 <= i < j < |chain| ==> chain[i] != chain[j]
    requires chain[|chain| - 1] in tokens && tokens[chain[|chain| - 1]].Live()
    ensures var r := Rotate(tokens, chain[|chain| - 1], next, input, at);
      r.Some? && LinksOk(r.value, chain + [next])
  {
  }

  /** Rows outside a chain do not matter to it. */
  lemma OtherLinksOk(tokens: Table, after: Table, log: Table, f: Id, chain: seq<Id>)
    requires ChainOk(log, f, chain) && LinksOk(tokens, chain)
    requires forall id :: id in log && log[id].family == f ==>
      (id in after <==> id in tokens) && (id in tokens ==> after[id] == tokens[id])
    ensures LinksOk(after, chain)
  {
    LinksOkSame(tokens, after, chain);
  }

  /** Every chain but one is untouched when only that family's rows change or appear. */
  lemma OtherChainsLinksOk(tokens: Table, after: Table, log: Table, chains: map<Id, seq<Id>>, changed: Id)
    requires ChainsOk(log, chains) && AllLinksOk(tokens, chains)
    requires forall id :: id in log && log[id].family != changed ==>
      (id in after <==> id in tokens) && (id in tokens ==> after[id] == tokens[id])
    ensures forall f :: f in chains && f != changed ==> LinksOk(after, chains[f])
  {
    forall f | f in chains && f != changed ensures LinksOk(after, chains[f]) {
      OtherLinksOk(tokens, after, log, f, chains[f]);
    }
  }

  // ----- Every step keeps the invariant -----

  lemma CallStaysOk(s: State, t: State, call: Call)
    requires Extends(s, t) && CallOk(s, call)
    ensures CallOk(t, call)
  {
    if GotSession(call) {
      var prior, next := call.phase.outcome.prior, call.phase.outcome.next;
      var chain := s.chains[s.log[prior].family];
      var i :| 0 < i < |chain| && chain[i - 1] == prior && chain[i] == next;
      var longer := t.chains[s.log[prior].family];
      assert longer[i - 1] == prior && longer[i] == next;
    }
  }

  /** Calls other than k are unaffected by a step; k itself is shown to be fine by the caller. */
  lemma CallsStayOk(s: State, t: State, k: nat, call: Call)
    requires CallsOk(s) && Extends(s, t) && t.calls == s.calls[k := call]
    requires CallOk(t, call)
    requires GotSession(call) ==> call.phase.outcome.next !in s.log
    ensures CallsOk(t)
  {
    forall c | c in t.calls ensures CallOk(t, t.calls[c]) {
      if c != k {
        CallStaysOk(s, t, s.calls[c]);
      }
    }
    forall a, b | a in t.calls && b in t.calls && a != b && GotSession(t.calls[a]) && GotSession(t.calls[b])
      ensures t.calls[a].phase.outcome.next != t.calls[b].phase.outcome.next
    {
      assert a != k ==> CallOk(s, s.calls[a]);
      assert b != k ==> CallOk(s, s.calls[b]);
    }
  }

  lemma CallsKept(s: State, t: State)
    requires CallsOk(s) && Extends(s, t) && t.calls == s.calls
    ensures CallsOk(t)
  {
    forall k | k in s.calls ensures CallOk(t, t.calls[k]) {
      CallStaysOk(s, t, s.calls[k]);
    }
  }

  lemma RevokeKeepsTable(tokens: Table, log: Table, chains: map<Id, seq<Id>>, scope: Scope, at: Time)
    requires LogOk(tokens, log) && AllLinksOk(tokens, chains)
    ensures LogOk(Revoke(tokens, scope, at), log) && AllLinksOk(Revoke(tokens, scope, at), chains)
  {
    var after := Revoke(tokens, scope, at);
    forall f | f in chains ensures LinksOk(after, chains[f]) {
      assert LinksOk(tokens, chains[f]);
    }
  }

  lemma RevokeKeepsInv(s: State, scope: Scope, at: Time)
    requires Inv(s)
    ensures var t := s.(tokens := Revoke(s.tokens, scope, at)); Inv(t) && Extends(s, t)
  {
    RevokeKeepsTable(s.tokens, s.log, s.chains, scope, at);
    CallsKept(s, s.(tokens := Revoke(s.tokens, scope, at)));
  }

  lemma PurgeKeepsLinks(tokens: Table, log: Table, f: Id, chain: seq<Id>, dbNow: Time)
    requires LogOk(tokens, log) && ChainOk(log, f, chain) && LinksOk(tokens, chain)
    ensures LinksOk(Purge(tokens, dbNow), chain)
  {
    var after := Purge(tokens, dbNow);
    forall i, j | 0 <= i < j < |chain| && chain[i] in after ensures chain[j] in after {
      SameIdentity(tokens[chain[i]], log[chain[i]]);
      SameIdentity(tokens[chain[j]], log[chain[j]]);
    }
  }

  lemma PurgeKeepsTable(s: State)
    requires TableOk(s)
    ensures TableOk(s.(tokens := Purge(s.tokens, s.clock)))
  {
    forall f | f in s.chains ensures LinksOk(Purge(s.tokens, s.clock), s.chains[f]) {
      PurgeKeepsLinks(s.tokens, s.log, f, s.chains[f], s.clock);
    }
  }

  lemma PurgeKeepsInv(s: State)
    requires Inv(s)
    ensures var t := s.(tokens := Purge(s.tokens, s.clock)); Inv(t) && Extends(s, t)
  {
    PurgeKeepsTable(s);
    CallsKept(s, s.(tokens := Purge(s.tokens, s.clock)));
  }

  lemma SameIdentity(a: Token, b: Token)
    requires a.Identity() == b.Identity()
    ensures a.Session() == b.Session() && a.hash == b.hash
    ensures a.expiresAt == b.expiresAt && a.LastUse() == b.LastUse()
  {
    assert a.Identity().Session() == a.Session() && b.Identity().Session() == b.Session();
    assert a.Identity().hash == a.hash && b.Identity().hash == b.hash;
    assert a.Identity().expiresAt == a.expiresAt && b.Identity().expiresAt == b.expiresAt;
    assert a.Identity().LastUse() == a.LastUse() && b.Identity().LastUse() == b.LastUse();
  }

  lemma FirstRowKeepsLinks(s: State, id: Id, row: Token)
    requires ChainsOk(s.log, s.chains) && AllLinksOk(s.tokens, s.chains) && LogOk(s.tokens, s.log)
    requires id !in s.log && row.family !in s.chains && row.replacedBy == None
    ensures var t := Insert(s, id, row, [id]); AllLinksOk(t.tokens, t.chains)
  {
    var t := Insert(s, id, row, [id]);
    OtherChainsLinksOk(s.tokens, t.tokens, s.log, s.chains, row.family);
    SingleLinkOk(t.tokens, id);
  }

  lemma SingleLinkOk(tokens: Table, id: Id)
    requires id in tokens && tokens[id].replacedBy == None
    ensures LinksOk(tokens, [id])
  {
  }

  lemma FirstRowKeepsLog(s: State, id: Id, row: Token)
    requires LogOk(s.tokens, s.log) && TimesOk(s.log, s.ttl, s.clock) && Fresh(s, id, row.hash)
    requires row.expiresAt == row.LastUse() + s.ttl && row.LastUse() <= s.clock
    ensures var t := Insert(s, id, row, [id]);
      LogOk(t.tokens, t.log) && TimesOk(t.log, t.ttl, t.clock) && LogGrows(s.log, t.log)
  {
  }

  lemma LastIsLogged(log: Table, chains: map<Id, seq<Id>>, f: Id)
    requires ChainsOk(log, chains) && f in chains
    ensures |chains[f]| > 0
    ensures var last := chains[f][|chains[f]| - 1]; last in log && log[last].family == f
  {
    assert ChainOk(log, f, chains[f]);
  }

  lemma FirstRowKeepsEnded(s: State, id: Id, row: Token)
    requires ChainsOk(s.log, s.chains) && id !in s.log && row.family !in s.chains
    ensures EndedStays(s, Insert(s, id, row, [id]))
  {
    var t := Insert(s, id, row, [id]);
    forall f | Ended(s.tokens, s.chains, f) ensures Ended(t.tokens, t.chains, f) && t.chains[f] == s.chains[f] {
      LastIsLogged(s.log, s.chains, f);
    }
  }

  lemma FirstRowKeepsInv(s: State, id: Id, row: Token)
    requires Inv(s) && Fresh(s, id, row.hash) && row.family !in s.chains && row.replacedBy == None
    requires row.expiresAt == row.LastUse() + s.ttl && row.LastUse() <= s.clock
    ensures Inv(Insert(s, id, row, [id])) && Extends(s, Insert(s, id, row, [id]))
  {
    var t := Insert(s, id, row, [id]);
    InsertKeepsChains(s.log, s.chains, id, row, [id]);
    FirstRowKeepsLinks(s, id, row);
    FirstRowKeepsLog(s, id, row);
    FirstRowKeepsEnded(s, id, row);
    CallsKept(s, t);
  }

  /** Only the last row of a chain can be live. */
  lemma LiveIsLast(tokens: Table, log: Table, chains: map<Id, seq<Id>>, id: Id)
    requires LogOk(tokens, log) && ChainsOk(log, chains) && AllLinksOk(tokens, chains)
    requires id in tokens && tokens[id].Live()
    ensures var f := tokens[id].family;
      f in chains && |chains[f]| > 0 && chains[f][|chains[f]| - 1] == id
  {
    SameIdentity(tokens[id], log[id]);
    var chain := chains[tokens[id].family];
    assert LinksOk(tokens, chain);
    var i :| 0 <= i < |chain| && chain[i] == id;
    assert i >= |chain| - 1;
  }

  /** The call is about to win the rotation: the row it read is still live. */
  ghost predicate Wins(s: State, call: nat, next: Id, hash: Hash, mintedAt: Time) {
    && call in s.calls && s.calls[call].phase.Rotating? && Fresh(s, next, hash)
    && s.calls[call].phase.now <= mintedAt <= s.clock
    && var prior := s.calls[call].phase.prior; prior in s.tokens && s.tokens[prior].Live()
  }

  ghost predicate LastOf(s: State, prior: Id, row: Token) {
    && prior in s.log && prior in s.tokens && s.tokens[prior].Live()
    && row.Session() == s.log[prior].Session() && row.LastUse() == s.log[prior].LastUse()
    && row.family in s.chains && |s.chains[row.family]| > 0
    && s.chains[row.family][|s.chains[row.family]| - 1] == prior
  }

  lemma WinnerIsLast(s: State, call: nat, next: Id, hash: Hash, mintedAt: Time)
    requires Inv(s) && Wins(s, call, next, hash, mintedAt)
    ensures var Rotating(prior, row, now) := s.calls[call].phase;
      LastOf(s, prior, row) && row.LastUse() <= now && s.log[prior].hash == s.calls[call].hash
  {
    var Rotating(prior, row, now) := s.calls[call].phase;
    assert CallOk(s, s.calls[call]);
    LiveIsLast(s.tokens, s.log, s.chains, prior);
    LastIsRead(s.tokens[prior], row, s.log[prior]);
  }

  /** The row a call read and the row now stored agree on what never changes. */
  lemma LastIsRead(stored: Token, row: Token, logged: Token)
    requires stored.Identity() == logged.Identity() && row.Identity() == logged.Identity()
    ensures row.Session() == logged.Session() && row.LastUse() == logged.LastUse()
    ensures row.family == stored.family == logged.family
  {
    SameIdentity(row, logged);
    SameIdentity(stored, logged);
  }

  /** The table after a successful rotation of a family's last row. */
  function NextRow(s: State, prior: Id, next: Id, input: Token, now: Time): State
    requires prior in s.tokens && input.family in s.chains
  {
    Insert(s, next, input, s.chains[input.family] + [next])
      .(tokens := s.tokens[prior := s.tokens[prior].(revokedAt := Some(now), replacedBy := Some(next), updatedAt := now)]
                          [next := input])
  }

  lemma NextRowKeepsChains(s: State, prior: Id, row: Token, next: Id, input: Token, now: Time)
    requires TableOk(s) && LastOf(s, prior, row) && next !in s.log
    requires input.Session() == row.Session() && row.LastUse() <= input.LastUse()
    requires input.expiresAt == input.LastUse() + s.ttl
    ensures var t := NextRow(s, prior, next, input, now);
      ChainsOk(t.log, t.chains) && ChainsGrow(s.chains, t.chains) && Successor(t.log, t.chains, prior, next)
  {
    var f := input.family;
    assert f == row.family;
    var chain := s.chains[f];
    ExtendedChainOk(s.log, f, chain, next, input);
    assert (chain + [next])[|chain|] == next;
    InsertKeepsChains(s.log, s.chains, next, input, chain + [next]);
    assert (chain + [next])[|chain| - 1] == prior;
  }

  lemma LastHasFamily(s: State, prior: Id, row: Token)
    requires TableOk(s) && LastOf(s, prior, row)
    ensures prior in s.log && s.log[prior].family == row.family && row.family in s.chains
    ensures ChainOk(s.log, row.family, s.chains[row.family]) && LinksOk(s.tokens, s.chains[row.family])
  {
  }

  lemma NextRowKeepsOwnLinks(s: State, prior: Id, row: Token, next: Id, input: Token, now: Time)
    requires TableOk(s) && LastOf(s, prior, row) && next !in s.log
    requires input.Session() == row.Session() && input.replacedBy == None
    ensures var t := NextRow(s, prior, next, input, now); LinksOk(t.tokens, t.chains[input.family])
  {
    LastHasFamily(s, prior, row);
    ExtendedLinksOk(s.tokens, s.chains[row.family], next, input, now);
  }

  lemma TwoRowsKeepOtherLinks(
      tokens: Table, log: Table, chains: map<Id, seq<Id>>, prior: Id, revoked: Token, next: Id, input: Token)
    requires ChainsOk(log, chains) && AllLinksOk(tokens, chains)
    requires prior in tokens && prior in log && next !in log
    ensures forall f :: f in chains && f != log[prior].family ==>
      LinksOk(tokens[prior := revoked][next := input], chains[f])
  {
    OtherChainsLinksOk(tokens, tokens[prior := revoked][next := input], log, chains, log[prior].family);
  }

  lemma NextRowKeepsLinks(s: State, prior: Id, row: Token, next: Id, input: Token, now: Time)
    requires TableOk(s) && LastOf(s, prior, row) && next !in s.log
    requires input.Session() == row.Session() && input.replacedBy == None
    ensures var t := NextRow(s, prior, next, input, now); AllLinksOk(t.tokens, t.chains)
  {
    assert input.family == row.family;
    NextRowKeepsOwnLinks(s, prior, row, next, input, now);
    LastHasFamily(s, prior, row);
    var revoked := s.tokens[prior].(revokedAt := Some(now), replacedBy := Some(next), updatedAt := now);
    TwoRowsKeepOtherLinks(s.tokens, s.log, s.chains, prior, revoked, next, input);
  }

  lemma NextRowKeepsLog(s: State, prior: Id, next: Id, input: Token, now: Time)
    requires LogOk(s.tokens, s.log) && TimesOk(s.log, s.ttl, s.clock) && Fresh(s, next, input.hash)
    requires prior in s.tokens && input.family in s.chains
    requires input.expiresAt == input.LastUse() + s.ttl && input.LastUse() <= s.clock
    ensures var t := NextRow(s, prior, next, input, now);
      LogOk(t.tokens, t.log) && TimesOk(t.log, t.ttl, t.clock) && LogGrows(s.log, t.log)
  {
  }

  lemma NextRowKeepsEnded(s: State, prior: Id, row: Token, next: Id, input: Token, now: Time)
    requires ChainsOk(s.log, s.chains) && LastOf(s, prior, row) && next !in s.log
    requires input.family == row.family
    ensures EndedStays(s, NextRow(s, prior, next, input, now))
  {
    var t := NextRow(s, prior, next, input, now);
    forall f | Ended(s.tokens, s.chains, f) ensures Ended(t.tokens, t.chains, f) && t.chains[f] == s.chains[f] {
      LastIsLogged(s.log, s.chains, f);
      assert f != row.family;
    }
  }

  lemma NextRowKeepsTable(s: State, prior: Id, row: Token, next: Id, input: Token, now: Time)
    requires TableOk(s) && LastOf(s, prior, row) && Fresh(s, next, input.hash)
    requires input.Session() == row.Session() && input.replacedBy == None && row.LastUse() <= input.LastUse()
    requires input.expiresAt == input.LastUse() + s.ttl && input.LastUse() <= s.clock
    ensures var t := NextRow(s, prior, next, input, now);
      TableOk(t) && Extends(s, t) && Successor(t.log, t.chains, prior, next) && t.calls == s.calls
  {
    NextRowKeepsChains(s, prior, row, next, input, now);
    NextRowKeepsLinks(s, prior, row, next, input, now);
    NextRowKeepsLog(s, prior, next, input, now);
    NextRowKeepsEnded(s, prior, row, next, input, now);
  }

  lemma WinKeepsTable(s: State, call: nat, next: Id, hash: Hash, mintedAt: Time)
    requires Inv(s) && Wins(s, call, next, hash, mintedAt)
    ensures var Rotating(prior, row, now) := s.calls[call].phase;
      && row.family in s.chains && prior in s.log && s.log[prior].hash == s.calls[call].hash
      && var t := NextRow(s, prior, next, Carried(row, hash, mintedAt, s.ttl), now);
      TableOk(t) && Extends(s, t) && Successor(t.log, t.chains, prior, next) && t.calls == s.calls
      && DoRotate(s, call, next, hash, mintedAt) == Advance(t, call, Returned(Session(prior, next)))
  {
    WinnerIsLast(s, call, next, hash, mintedAt);
    var Rotating(prior, row, now) := s.calls[call].phase;
    NextRowKeepsTable(s, prior, row, next, Carried(row, hash, mintedAt, s.ttl), now);
  }

  lemma WinKeepsInv(s: State, call: nat, next: Id, hash: Hash, mintedAt: Time)
    requires Inv(s) && Wins(s, call, next, hash, mintedAt)
    ensures var t := DoRotate(s, call, next, hash, mintedAt); Inv(t) && Extends(s, t)
  {
    WinKeepsTable(s, call, next, hash, mintedAt);
    var t := DoRotate(s, call, next, hash, mintedAt);
    CallsStayOk(s, t, call, t.calls[call]);
  }

  lemma RotateKeepsInv(s: State, call: nat, next: Id, hash: Hash, mintedAt: Time)
    requires Inv(s) && Enabled(s, TryRotate(call, next, hash, mintedAt))
    ensures var t := DoRotate(s, call, next, hash, mintedAt); Inv(t) && Extends(s, t)
  {
    var t := DoRotate(s, call, next, hash, mintedAt);
    if Wins(s, call, next, hash, mintedAt) {
      WinKeepsInv(s, call, next, hash, mintedAt);
    } else {
      var Rotating(prior, row, now) := s.calls[call].phase;
      assert CallOk(s, s.calls[call]);
      ReadRow(s, s.calls[call].hash, prior, row);
      LocalKeepsInv(s, call, t.calls[call]);
    }
  }

  lemma FamilyEnded(tokens: Table, log: Table, chains: map<Id, seq<Id>>, f: Id, at: Time)
    requires LogOk(tokens, log) && ChainsOk(log, chains) && f in chains
    ensures Ended(Revoke(tokens, OfFamily(f), at), chains, f)
  {
    var last := chains[f][|chains[f]| - 1];
    assert ChainOk(log, f, chains[f]);
    if last in tokens {
      SameIdentity(tokens[last], log[last]);
    }
  }

  lemma RevokeFamilyKeepsInv(s: State, call: nat)
    requires Inv(s) && Enabled(s, RevokeFamily(call))
    ensures Inv(DoRevokeFamily(s, call)) && Extends(s, DoRevokeFamily(s, call))
  {
    var t := DoRevokeFamily(s, call);
    assert CallOk(s, s.calls[call]);
    var phase := s.calls[call].phase;
    RevokeKeepsTable(s.tokens, s.log, s.chains, OfFamily(phase.family), phase.now);
    FamilyEnded(s.tokens, s.log, s.chains, phase.family, phase.now);
    CallsStayOk(s, t, call, t.calls[call]);
  }

  /** A step that changes only what call k knows. */
  lemma LocalKeepsInv(s: State, k: nat, call: Call)
    requires Inv(s) && CallOk(s, call) && !GotSession(call)
    ensures var t := s.(calls := s.calls[k := call]); Inv(t) && Extends(s, t)
  {
    CallsStayOk(s, s.(calls := s.calls[k := call]), k, call);
  }

  lemma LookupKeepsInv(s: State, call: nat, hash: Hash)
    requires Inv(s)
    ensures Inv(DoLookup(s, call, hash)) && Extends(s, DoLookup(s, call, hash))
  {
    var found := Find(s.tokens, hash);
    if found.Some? {
      SameIdentity(s.tokens[found.value], s.log[found.value]);
    }
    LocalKeepsInv(s, call, DoLookup(s, call, hash).calls[call]);
  }

  /** What a call knows about the row it read. */
  lemma ReadRow(s: State, hash: Hash, prior: Id, row: Token)
    requires TimesOk(s.log, s.ttl, s.clock) && ChainsOk(s.log, s.chains) && Presented(s.log, hash, prior, row)
    ensures row.family in s.chains && RowOk(s, hash, prior, row, s.clock)
  {
    SameIdentity(row, s.log[prior]);
  }

  lemma DecidedCallOk(s: State, call: nat)
    requires Inv(s) && Enabled(s, Decide(call))
    ensures var decided := DoDecide(s, call).calls[call]; CallOk(s, decided) && !GotSession(decided)
  {
    var Looked(prior, row) := s.calls[call].phase;
    assert CallOk(s, s.calls[call]);
    ReadRow(s, s.calls[call].hash, prior, row);
    var decided := DoDecide(s, call).calls[call];
    if !row.Live() {
      assert decided.phase == Reusing(row.family, s.clock);
    } else if row.expiresAt <= s.clock {
      assert decided.phase == Returned(Expired);
    } else {
      assert decided.phase == Checking(prior, row, s.clock);
    }
  }

  lemma DecideKeepsInv(s: State, call: nat)
    requires Inv(s) && Enabled(s, Decide(call))
    ensures Inv(DoDecide(s, call)) && Extends(s, DoDecide(s, call))
  {
    DecidedCallOk(s, call);
    LocalKeepsInv(s, call, DoDecide(s, call).calls[call]);
  }

  lemma CheckUserKeepsInv(s: State, call: nat, status: UserStatus)
    requires Inv(s) && Enabled(s, CheckUser(call, status))
    ensures Inv(DoCheckUser(s, call, status)) && Extends(s, DoCheckUser(s, call, status))
  {
    assert CallOk(s, s.calls[call]);
    LocalKeepsInv(s, call, DoCheckUser(s, call, status).calls[call]);
  }

  /** Every step of every service call, every statement and every purge keeps the invariant. */
  lemma StepKeepsInv(s: State, e: Event)
    requires Inv(s) && Enabled(s, e)
    ensures Inv(Apply(s, e)) && Extends(s, Apply(s, e))
  {
    match e
    case Tick(_) => CallsKept(s, Apply(s, e));
    case SignIn(id, user, family, client, hash, mintedAt) =>
      FirstRowKeepsInv(s, id, Mint(user, family, client, None, hash, mintedAt, s.ttl));
    case Lookup(call, hash) => LookupKeepsInv(s, call, hash);
    case Decide(call) => DecideKeepsInv(s, call);
    case CheckUser(call, status) => CheckUserKeepsInv(s, call, status);
    case TryRotate(call, next, hash, mintedAt) => RotateKeepsInv(s, call, next, hash, mintedAt);
    case RevokeFamily(call) => RevokeFamilyKeepsInv(s, call);
    case RevokeStatement(scope, at) => RevokeKeepsInv(s, scope, at);
    case PurgeStatement => PurgeKeepsInv(s);
  }

  lemma {:induction false} RunKeepsInv(s: State, run: seq<Event>)
    requires Inv(s) && ValidRun(s, run)
    ensures Inv(Exec(s, run)) && Extends(s, Exec(s, run))
    decreases |run|
  {
    if run != [] {
      StepKeepsInv(s, run[0]);
      RunKeepsInv(Apply(s, run[0]), run[1..]);
    }
  }
}
