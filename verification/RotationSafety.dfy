/** What the rotation protocol guarantees in every interleaving, read off its invariant. */
module RotationSafety {
  import opened Wrappers
  import opened RefreshTokens

  // ----- The shape of the table -----

  /** line lists the stored rows of the family, each once and in order: they agree on the session they
      describe, every one but the last is revoked and names its successor, the last names none. */
  ghost predicate IsLine(tokens: Table, family: Id, line: seq<Id>) {
    && (forall i :: 0 <= i < |line| ==> line[i] in tokens && tokens[line[i]].family == family)
    && (forall id :: id in tokens && tokens[id].family == family ==> id in line)
    && (forall i, j :: 0 <= i < j < |line| ==>
         && line[i] != line[j]
         && tokens[line[i]].Session() == tokens[line[j]].Session()
         && !tokens[line[i]].Live()
         && (j == i + 1 ==> tokens[line[i]].replacedBy == Some(line[j])))
    && (line != [] ==> tokens[line[|line| - 1]].replacedBy == None)
  }

  ghost predicate HasLine(tokens: Table, family: Id) {
    exists line :: IsLine(tokens, family, line)
  }

  /** How many of a chain's first rows are no longer stored. */
  function Gone(tokens: Table, chain: seq<Id>): (n: nat)
    ensures n <= |chain|
    ensures forall i :: 0 <= i < n ==> chain[i] !in tokens
    ensures n < |chain| ==> chain[n] in tokens
  {
    if chain == [] || chain[0] in tokens then 0 else 1 + Gone(tokens, chain[1..])
  }

  lemma FamilyIsLine(s: State, family: Id)
    requires Inv(s)
    ensures HasLine(s.tokens, family)
  {
    if family !in s.chains {
      forall id | id in s.tokens ensures s.tokens[id].family != family {
        SameIdentity(s.tokens[id], s.log[id]);
      }
      assert IsLine(s.tokens, family, []);
    } else {
      var chain := s.chains[family];
      var line := chain[Gone(s.tokens, chain)..];
      ChainSuffixIsLine(s, family, line);
    }
  }

  lemma StoredRow(s: State, family: Id, i: nat)
    requires Inv(s) && family in s.chains && i < |s.chains[family]| && s.chains[family][i] in s.tokens
    ensures var id := s.chains[family][i];
      id in s.log && s.tokens[id].family == family && s.tokens[id].Session() == s.log[id].Session()
  {
    assert ChainOk(s.log, family, s.chains[family]);
    SameIdentity(s.tokens[s.chains[family][i]], s.log[s.chains[family][i]]);
  }

  lemma StoredPair(s: State, family: Id, i: nat, j: nat)
    requires Inv(s) && family in s.chains && i < j < |s.chains[family]| && s.chains[family][i] in s.tokens
    ensures var a, b := s.chains[family][i], s.chains[family][j];
      && b in s.tokens && a != b && s.tokens[a].Session() == s.tokens[b].Session()
      && !s.tokens[a].Live() && (j == i + 1 ==> s.tokens[a].replacedBy == Some(b))
  {
    assert ChainOk(s.log, family, s.chains[family]) && LinksOk(s.tokens, s.chains[family]);
    StoredRow(s, family, i);
    StoredRow(s, family, j);
  }

  lemma SuffixIsLine(tokens: Table, family: Id, chain: seq<Id>, n: nat)
    requires n <= |chain|
    requires forall i :: n <= i < |chain| ==> chain[i] in tokens && tokens[chain[i]].family == family
    requires forall id :: id in tokens && tokens[id].family == family ==> id in chain[n..]
    requires forall i, j :: n <= i < j < |chain| ==>
      && chain[i] != chain[j] && tokens[chain[i]].Session() == tokens[chain[j]].Session()
      && !tokens[chain[i]].Live() && (j == i + 1 ==> tokens[chain[i]].replacedBy == Some(chain[j]))
    requires n < |chain| ==> tokens[chain[|chain| - 1]].replacedBy == None
    ensures IsLine(tokens, family, chain[n..])
  {
    var line := chain[n..];
    forall i, j | 0 <= i < j < |line|
      ensures line[i] != line[j] && tokens[line[i]].Session() == tokens[line[j]].Session()
      ensures !tokens[line[i]].Live() && (j == i + 1 ==> tokens[line[i]].replacedBy == Some(line[j]))
    {
      assert line[i] == chain[n + i] && line[j] == chain[n + j];
    }
  }

  lemma StoredPairs(s: State, family: Id, chain: seq<Id>, n: nat)
    requires Inv(s) && family in s.chains && chain == s.chains[family]
    requires forall i :: n <= i < |chain| ==> chain[i] in s.tokens
    ensures forall i, j :: n <= i < j < |chain| ==>
      && chain[i] != chain[j] && s.tokens[chain[i]].Session() == s.tokens[chain[j]].Session()
      && !s.tokens[chain[i]].Live() && (j == i + 1 ==> s.tokens[chain[i]].replacedBy == Some(chain[j]))
  {
    forall i, j | n <= i < j < |chain|
      ensures chain[i] != chain[j] && s.tokens[chain[i]].Session() == s.tokens[chain[j]].Session()
      ensures !s.tokens[chain[i]].Live() && (j == i + 1 ==> s.tokens[chain[i]].replacedBy == Some(chain[j]))
    {
      StoredPair(s, family, i, j);
    }
  }

  lemma ChainSuffixIsLine(s: State, family: Id, line: seq<Id>)
    requires Inv(s) && family in s.chains
    requires line == s.chains[family][Gone(s.tokens, s.chains[family])..]
    ensures IsLine(s.tokens, family, line)
  {
    var chain := s.chains[family];
    var n := Gone(s.tokens, chain);
    assert LinksOk(s.tokens, chain);
    StoredIsSuffix(s.tokens, chain);
    StoredPairs(s, family, chain, n);
    forall i | n <= i < |chain| ensures s.tokens[chain[i]].family == family {
      StoredRow(s, family, i);
    }
    forall id | id in s.tokens && s.tokens[id].family == family ensures id in line {
      RowIsInLine(s, family, id);
    }
    SuffixIsLine(s.tokens, family, chain, n);
  }

  lemma RowIsInLine(s: State, family: Id, id: Id)
    requires TableOk(s) && family in s.chains && id in s.tokens && s.tokens[id].family == family
    ensures id in s.chains[family][Gone(s.tokens, s.chains[family])..]
  {
    var chain := s.chains[family];
    SameIdentity(s.tokens[id], s.log[id]);
    assert ChainOk(s.log, family, chain) && LinksOk(s.tokens, chain);
    assert id in chain;
    StoredIsSuffix(s.tokens, chain);
    StoredInSuffix(s.tokens, chain, id);
  }

  lemma StoredInSuffix(tokens: Table, chain: seq<Id>, id: Id)
    requires id in chain && id in tokens
    ensures id in chain[Gone(tokens, chain)..]
  {
    assert chain == chain[..Gone(tokens, chain)] + chain[Gone(tokens, chain)..];
  }

  /** The token n rotations after id, as far as the stored links tell. */
  function Follow(tokens: Table, id: Id, n: nat): Option<Id>
    decreases n
  {
    if n == 0 then Some(id)
    else if id in tokens && tokens[id].replacedBy.Some? then Follow(tokens, tokens[id].replacedBy.value, n - 1)
    else None
  }

  lemma {:induction false} FollowMovesForward(tokens: Table, family: Id, line: seq<Id>, i: nat, n: nat)
    requires IsLine(tokens, family, line) && i < |line|
    ensures Follow(tokens, line[i], n) == if i + n < |line| then Some(line[i + n]) else None
    decreases n
  {
    if n > 0 {
      if i + 1 < |line| {
        assert tokens[line[i]].replacedBy == Some(line[i + 1]);
        FollowMovesForward(tokens, family, line, i + 1, n - 1);
      } else {
        assert line[i] == line[|line| - 1];
      }
    }
  }

  ghost predicate WellFormed(tokens: Table) {
    // at most one live row a family, and its rows agree on user, start time and device
    && (forall a, b :: a in tokens && b in tokens && tokens[a].family == tokens[b].family ==>
         && tokens[a].Session() == tokens[b].Session()
         && (tokens[a].Live() && tokens[b].Live() ==> a == b))
    // replaced_by_token_id never dangles, stays in the family and only sits on revoked rows
    && (forall a :: a in tokens && tokens[a].replacedBy.Some? ==>
         && !tokens[a].Live() && tokens[a].replacedBy.value in tokens
         && tokens[tokens[a].replacedBy.value].family == tokens[a].family)
    // no two rows are replaced by the same one, and no cycle exists
    && (forall a, b :: a in tokens && b in tokens && a != b && tokens[a].replacedBy.Some? ==>
         tokens[a].replacedBy != tokens[b].replacedBy)
    && (forall a, n: nat :: a in tokens && n > 0 ==> Follow(tokens, a, n) != Some(a))
    // the rows of a family form a single line of rotations
    && (forall f :: HasLine(tokens, f))
  }

  lemma RowsOfOneLine(tokens: Table, f: Id, line: seq<Id>, a: Id, b: Id)
    requires IsLine(tokens, f, line)
    requires a in tokens && b in tokens && tokens[a].family == f && tokens[b].family == f
    ensures tokens[a].Session() == tokens[b].Session()
    ensures tokens[a].Live() && tokens[b].Live() ==> a == b
    ensures tokens[a].replacedBy.Some? ==>
      && !tokens[a].Live() && tokens[a].replacedBy.value in line
      && (a != b ==> tokens[a].replacedBy != tokens[b].replacedBy)
  {
    var i :| 0 <= i < |line| && line[i] == a;
    var j :| 0 <= j < |line| && line[j] == b;
    if i + 1 < |line| {
      assert tokens[line[i]].replacedBy == Some(line[i + 1]);
    }
    if j + 1 < |line| {
      assert tokens[line[j]].replacedBy == Some(line[j + 1]);
    }
  }

  lemma LinesAreWellFormed(tokens: Table)
    requires forall f :: HasLine(tokens, f)
    ensures WellFormed(tokens)
  {
    forall a | a in tokens
      ensures forall n: nat :: n > 0 ==> Follow(tokens, a, n) != Some(a)
      ensures tokens[a].replacedBy.Some? ==>
        && tokens[a].replacedBy.value in tokens && !tokens[a].Live()
        && tokens[tokens[a].replacedBy.value].family == tokens[a].family
    {
      var f := tokens[a].family;
      assert HasLine(tokens, f);
      var line :| IsLine(tokens, f, line);
      var i :| 0 <= i < |line| && line[i] == a;
      forall n: nat | n > 0 ensures Follow(tokens, a, n) != Some(a) {
        FollowMovesForward(tokens, f, line, i, n);
      }
      RowsOfOneLine(tokens, f, line, a, a);
    }
    forall a, b | a in tokens && b in tokens && tokens[a].family == tokens[b].family
      ensures tokens[a].Session() == tokens[b].Session()
      ensures tokens[a].Live() && tokens[b].Live() ==> a == b
      ensures a != b && tokens[a].replacedBy.Some? ==> tokens[a].replacedBy != tokens[b].replacedBy
    {
      assert HasLine(tokens, tokens[a].family);
      var line :| IsLine(tokens, tokens[a].family, line);
      RowsOfOneLine(tokens, tokens[a].family, line, a, b);
    }
    ReplacementsDiffer(tokens);
  }

  lemma ReplacementsDiffer(tokens: Table)
    requires forall f :: HasLine(tokens, f)
    ensures forall a, b :: a in tokens && b in tokens && a != b && tokens[a].replacedBy.Some? ==>
      tokens[a].replacedBy != tokens[b].replacedBy
  {
    forall a, b | a in tokens && b in tokens && a != b && tokens[a].replacedBy.Some?
      ensures tokens[a].replacedBy != tokens[b].replacedBy
    {
      assert HasLine(tokens, tokens[a].family) && HasLine(tokens, tokens[b].family);
      var la :| IsLine(tokens, tokens[a].family, la);
      var lb :| IsLine(tokens, tokens[b].family, lb);
      RowsOfOneLine(tokens, tokens[a].family, la, a, a);
      RowsOfOneLine(tokens, tokens[b].family, lb, b, b);
      if tokens[a].family == tokens[b].family {
        RowsOfOneLine(tokens, tokens[a].family, la, a, b);
      }
    }
  }

  /** In every interleaving, from the empty table, every family is one forward line of rotations with
      at most one live row. */
  lemma ReachableTableIsWellFormed(s: State, run: seq<Event>)
    requires Init(s) && ValidRun(s, run)
    ensures WellFormed(Exec(s, run).tokens)
  {
    RunKeepsInv(s, run);
    forall f ensures HasLine(Exec(s, run).tokens, f) {
      FamilyIsLine(Exec(s, run), f);
    }
    LinesAreWellFormed(Exec(s, run).tokens);
  }

  // ----- The active-session list -----

  /** Whether a may come before b in ORDER BY last_used_at DESC NULLS LAST, created_at DESC. */
  predicate ListedBefore(a: Token, b: Token) {
    if a.lastUsedAt == b.lastUsedAt then a.createdAt >= b.createdAt
    else a.lastUsedAt.Some? && (b.lastUsedAt.Some? ==> a.lastUsedAt.value > b.lastUsedAt.value)
  }

  /** A result ListActiveSessionsByUserID may return. */
  ghost predicate IsActiveList(tokens: Table, user: Id, now: Time, list: seq<Id>) {
    && (forall id :: id in list <==> id in tokens && tokens[id].user == user && tokens[id].Active(now))
    && (forall i, j :: 0 <= i < j < |list| ==>
         list[i] != list[j] && ListedBefore(tokens[list[i]], tokens[list[j]]))
  }

  /** No session is listed twice. */
  lemma ActiveListHasDistinctFamilies(s: State, run: seq<Event>, user: Id, list: seq<Id>, i: nat, j: nat)
    requires Init(s) && ValidRun(s, run)
    requires IsActiveList(Exec(s, run).tokens, user, Exec(s, run).clock, list) && i < j < |list|
    ensures Exec(s, run).tokens[list[i]].family != Exec(s, run).tokens[list[j]].family
  {
    ReachableTableIsWellFormed(s, run);
    assert list[i] in list && list[j] in list;
  }

  // ----- One session per presented token; reuse ends the family -----

  /** However many Refresh calls present one token, at most one returns a session. */
  lemma AtMostOneSession(s: State, run: seq<Event>, a: nat, b: nat)
    requires Init(s) && ValidRun(s, run)
    requires a in Exec(s, run).calls && b in Exec(s, run).calls
    requires GotSession(Exec(s, run).calls[a]) && GotSession(Exec(s, run).calls[b])
    requires Exec(s, run).calls[a].hash == Exec(s, run).calls[b].hash
    ensures a == b
  {
    RunKeepsInv(s, run);
    SessionsOfOneHash(Exec(s, run), a, b);
  }

  lemma SessionsOfOneHash(t: State, a: nat, b: nat)
    requires Inv(t) && a in t.calls && b in t.calls && GotSession(t.calls[a]) && GotSession(t.calls[b])
    requires t.calls[a].hash == t.calls[b].hash
    ensures a == b
  {
    SessionIsRotation(t, a);
    SessionIsRotation(t, b);
    var Session(prior, next) := t.calls[a].phase.outcome;
    assert t.calls[b].phase.outcome.prior == prior;
    SuccessorIsUnique(t.log, t.chains, prior, next, t.calls[b].phase.outcome.next);
  }

  lemma SessionIsRotation(t: State, k: nat)
    requires CallsOk(t) && k in t.calls && GotSession(t.calls[k])
    ensures var Session(prior, next) := t.calls[k].phase.outcome;
      Successor(t.log, t.chains, prior, next) && t.log[prior].hash == t.calls[k].hash
  {
    assert CallOk(t, t.calls[k]);
  }

  lemma SuccessorIsUnique(log: Table, chains: map<Id, seq<Id>>, prior: Id, a: Id, b: Id)
    requires ChainsOk(log, chains) && Successor(log, chains, prior, a) && Successor(log, chains, prior, b)
    ensures a == b
  {
    var f := log[prior].family;
    var chain := chains[f];
    assert ChainOk(log, f, chain);
    var i :| 0 < i < |chain| && chain[i - 1] == prior && chain[i] == a;
    var j :| 0 < j < |chain| && chain[j - 1] == prior && chain[j] == b;
    assert i - 1 == j - 1;
  }

  lemma EndedRowIsRevoked(tokens: Table, log: Table, chains: map<Id, seq<Id>>, id: Id)
    requires LogOk(tokens, log) && ChainsOk(log, chains) && AllLinksOk(tokens, chains)
    requires id in tokens && Ended(tokens, chains, tokens[id].family)
    ensures !tokens[id].Live()
  {
    if tokens[id].Live() {
      LiveIsLast(tokens, log, chains, id);
    }
  }

  lemma EndedIsDead(s: State, f: Id)
    requires TableOk(s) && Ended(s.tokens, s.chains, f)
    ensures Dead(s.tokens, f)
  {
    forall id | id in s.tokens && s.tokens[id].family == f ensures !s.tokens[id].Live() {
      EndedRowIsRevoked(s.tokens, s.log, s.chains, id);
    }
  }

  lemma DeadIsEnded(s: State, f: Id)
    requires LogOk(s.tokens, s.log) && ChainsOk(s.log, s.chains) && f in s.chains && Dead(s.tokens, f)
    ensures Ended(s.tokens, s.chains, f)
  {
    LastIsLogged(s.log, s.chains, f);
    var last := s.chains[f][|s.chains[f]| - 1];
    if last in s.tokens {
      SameIdentity(s.tokens[last], s.log[last]);
    }
  }

  lemma EndedIffDead(s: State, f: Id)
    requires TableOk(s) && f in s.chains
    ensures Ended(s.tokens, s.chains, f) <==> Dead(s.tokens, f)
  {
    if Ended(s.tokens, s.chains, f) {
      EndedIsDead(s, f);
    } else if Dead(s.tokens, f) {
      DeadIsEnded(s, f);
    }
  }

  lemma SuccessorIsLogged(log: Table, chains: map<Id, seq<Id>>, f: Id, chain: seq<Id>, prior: Id, next: Id)
    requires ChainOk(log, f, chain) && Adjacent(chain, prior, next)
    ensures next in log
  {
  }

  lemma IssuedEarlier(s: State, t: State, f: Id, k: nat)
    requires ChainsOk(s.log, s.chains) && f in s.chains && f in t.chains && t.chains[f] == s.chains[f]
    requires IssuedFrom(t, k, f) && CallOk(t, t.calls[k])
    ensures t.calls[k].phase.outcome.next in s.log
  {
    var Session(prior, next) := t.calls[k].phase.outcome;
    assert ChainOk(s.log, f, s.chains[f]);
    SuccessorIsLogged(s.log, s.chains, f, s.chains[f], prior, next);
  }

  /** A family with no live row never gains one, and none of its tokens is ever rotated again. */
  lemma DeadFamilyStaysDead(s: State, run: seq<Event>, f: Id)
    requires Inv(s) && ValidRun(s, run) && f in s.chains && Dead(s.tokens, f)
    ensures var t := Exec(s, run);
      && Inv(t) && Dead(t.tokens, f) && f in t.chains && t.chains[f] == s.chains[f]
      && NoNewSession(s, t, f)
  {
    var t := Exec(s, run);
    RunKeepsInv(s, run);
    EndedIffDead(s, f);
    assert Ended(t.tokens, t.chains, f);
    EndedIffDead(t, f);
    forall k | IssuedFrom(t, k, f) ensures k in s.calls && s.calls[k] == t.calls[k] {
      SessionsAreFresh(s, run, k);
      assert CallOk(t, t.calls[k]);
      IssuedEarlier(s, t, f, k);
    }
  }

  /** Every session of family f that was returned by t was already returned in s. */
  ghost predicate NoNewSession(s: State, t: State, f: Id) {
    forall k :: IssuedFrom(t, k, f) ==> k in s.calls && s.calls[k] == t.calls[k]
  }

  /** Call k returned a session of family f. */
  ghost predicate IssuedFrom(s: State, k: nat, f: Id) {
    && k in s.calls && GotSession(s.calls[k])
    && var prior := s.calls[k].phase.outcome.prior; prior in s.log && s.log[prior].family == f
  }

  lemma SessionStepIsFresh(s: State, e: Event, k: nat)
    requires Enabled(s, e) && k in Apply(s, e).calls && GotSession(Apply(s, e).calls[k])
    ensures (k in s.calls && s.calls[k] == Apply(s, e).calls[k]) || Apply(s, e).calls[k].phase.outcome.next !in s.log
  {
  }

  lemma ReturnedCallsStay(s: State, e: Event, k: nat)
    requires Enabled(s, e) && k in s.calls && s.calls[k].phase.Returned?
    ensures k in Apply(s, e).calls && Apply(s, e).calls[k] == s.calls[k]
  {
  }

  lemma {:induction false} ReturnedCallsStayInRuns(s: State, run: seq<Event>, k: nat)
    requires ValidRun(s, run) && k in s.calls && s.calls[k].phase.Returned?
    ensures k in Exec(s, run).calls && Exec(s, run).calls[k] == s.calls[k]
    decreases |run|
  {
    if run != [] {
      ReturnedCallsStay(s, run[0], k);
      ReturnedCallsStayInRuns(Apply(s, run[0]), run[1..], k);
    }
  }

  /** A session returned during a run carries a token inserted during that run. */
  lemma {:induction false} SessionsAreFresh(s: State, run: seq<Event>, k: nat)
    requires Inv(s) && ValidRun(s, run) && k in Exec(s, run).calls && GotSession(Exec(s, run).calls[k])
    ensures (k in s.calls && s.calls[k] == Exec(s, run).calls[k])
      || Exec(s, run).calls[k].phase.outcome.next !in s.log
    decreases |run|
  {
    if run != [] {
      var t := Apply(s, run[0]);
      StepKeepsInv(s, run[0]);
      SessionsAreFresh(t, run[1..], k);
      if k in t.calls && t.calls[k] == Exec(s, run).calls[k] {
        SessionStepIsFresh(s, run[0], k);
      }
    }
  }

  lemma PunishedFamilyIsDead(t: State, k: nat, f: Id)
    requires Inv(t) && k in t.calls && t.calls[k].phase in {Returned(Reused(f)), Returned(Conflict(f))}
    ensures f in t.chains && Dead(t.tokens, f)
  {
    assert CallOk(t, t.calls[k]);
    EndedIffDead(t, f);
  }

  /** A call that returned through the reuse branch or the rotation conflict has ended the whole family,
      for the rest of the run. */
  lemma ReuseEndsFamily(s: State, run: seq<Event>, more: seq<Event>, k: nat, f: Id)
    requires Init(s) && ValidRun(s, run) && k in Exec(s, run).calls
    requires Exec(s, run).calls[k].phase in {Returned(Reused(f)), Returned(Conflict(f))}
    requires ValidRun(Exec(s, run), more)
    ensures Dead(Exec(s, run).tokens, f) && Dead(Exec(Exec(s, run), more).tokens, f)
    ensures NoNewSession(Exec(s, run), Exec(Exec(s, run), more), f)
  {
    RunKeepsInv(s, run);
    PunishedFamilyIsDead(Exec(s, run), k, f);
    DeadFamilyStaysDead(Exec(s, run), more, f);
  }

  // ----- Signing out -----

  /** Signing out with a live token ends its family for good: in every continuation no token of the family,
      whether issued before or read by a call still in flight, is rotated again. */
  lemma SignOutEndsSession(s: State, id: Id, at: Time, run: seq<Event>)
    requires Inv(s) && id in s.tokens && s.tokens[id].revokedAt == None
    requires ValidRun(Apply(s, RevokeStatement(ByHash(s.tokens[id].hash), at)), run)
    ensures var c := Apply(s, RevokeStatement(ByHash(s.tokens[id].hash), at));
      Dead(Exec(c, run).tokens, s.tokens[id].family) && NoNewSession(c, Exec(c, run), s.tokens[id].family)
  {
    var c := Apply(s, RevokeStatement(ByHash(s.tokens[id].hash), at));
    RevokeKeepsInv(s, ByHash(s.tokens[id].hash), at);
    SignedOutIsEnded(s, id, at);
    EndedIffDead(c, s.tokens[id].family);
    DeadFamilyStaysDead(c, run, s.tokens[id].family);
  }

  lemma SignedOutIsEnded(s: State, id: Id, at: Time)
    requires TableOk(s) && id in s.tokens && s.tokens[id].Live()
    ensures Ended(Revoke(s.tokens, ByHash(s.tokens[id].hash), at), s.chains, s.tokens[id].family)
  {
    LiveIsLast(s.tokens, s.log, s.chains, id);
  }

  // ----- A race for one token -----

  /** Two calls that both read the live row of one token and both found it fit to rotate: the second to ask
      loses, and takes the first one's new session down with it. */
  lemma LostRaceEndsSession(s: State, a: nat, b: nat, first: Event, second: Event)
    requires Inv(s) && a != b && a in s.calls && b in s.calls && s.calls[a].phase.Rotating? && s.calls[b].phase.Rotating?
    requires s.calls[b].phase.prior == s.calls[a].phase.prior && s.calls[a].phase.prior in s.tokens
    requires s.tokens[s.calls[a].phase.prior].Live()
    requires first.TryRotate? && first.call == a && second.TryRotate? && second.call == b
    requires Enabled(s, first) && Enabled(Apply(s, first), second)
    ensures var s2, f := Apply(Apply(s, first), second), s.calls[a].phase.row.family;
      && Enabled(s2, RevokeFamily(b))
      && Apply(s2, RevokeFamily(b)).calls ==
           s.calls[a := Call(s.calls[a].hash, Returned(Session(s.calls[a].phase.prior, first.next)))]
                  [b := Call(s.calls[b].hash, Returned(Conflict(f)))]
      && Dead(Apply(s2, RevokeFamily(b)).tokens, f)
  {
    var s2, f := Apply(Apply(s, first), second), s.calls[a].phase.row.family;
    SameRowSameFamily(s, a, b);
    SecondLoses(s, a, b, first, second);
    LoserReturns(s2, b, f);
    TwoStepsKeepInv(s, first, second);
    LoserEndsFamily(s2, b, f);
  }

  lemma SameRowSameFamily(s: State, a: nat, b: nat)
    requires CallsOk(s) && a in s.calls && b in s.calls && s.calls[a].phase.Rotating? && s.calls[b].phase.Rotating?
    requires s.calls[b].phase.prior == s.calls[a].phase.prior
    ensures s.calls[a].phase.prior in s.log && s.calls[a].phase.row.family == s.calls[b].phase.row.family
  {
    assert CallOk(s, s.calls[a]) && CallOk(s, s.calls[b]);
    assert s.calls[a].phase.row.Identity().family == s.calls[b].phase.row.Identity().family;
  }

  lemma TwoStepsKeepInv(s: State, first: Event, second: Event)
    requires Inv(s) && Enabled(s, first) && Enabled(Apply(s, first), second)
    ensures Inv(Apply(Apply(s, first), second))
  {
    StepKeepsInv(s, first);
    StepKeepsInv(Apply(s, first), second);
  }

  lemma LoserEndsFamily(s: State, b: nat, f: Id)
    requires Inv(s) && b in s.calls && s.calls[b].phase.Conflicted? && s.calls[b].phase.family == f
    ensures Enabled(s, RevokeFamily(b))
    ensures Dead(Apply(s, RevokeFamily(b)).tokens, f)
  {
    LoserReturns(s, b, f);
    StepKeepsInv(s, RevokeFamily(b));
    PunishedFamilyIsDead(Apply(s, RevokeFamily(b)), b, f);
  }

  lemma LoserReturns(s: State, b: nat, f: Id)
    requires b in s.calls && s.calls[b].phase.Conflicted? && s.calls[b].phase.family == f
    ensures Enabled(s, RevokeFamily(b))
    ensures Apply(s, RevokeFamily(b)).calls == s.calls[b := Call(s.calls[b].hash, Returned(Conflict(f)))]
  {
  }

  lemma SecondLoses(s: State, a: nat, b: nat, first: Event, second: Event)
    requires a != b && a in s.calls && b in s.calls && s.calls[a].phase.Rotating? && s.calls[b].phase.Rotating?
    requires s.calls[b].phase.prior == s.calls[a].phase.prior && s.calls[a].phase.prior in s.tokens
    requires s.tokens[s.calls[a].phase.prior].Live() && s.calls[a].phase.prior in s.log
    requires first.TryRotate? && first.call == a && second.TryRotate? && second.call == b
    requires Enabled(s, first) && Enabled(Apply(s, first), second)
    ensures var s2 := Apply(Apply(s, first), second);
      && b in s2.calls && s2.calls[b] == Call(s.calls[b].hash, Conflicted(s.calls[b].phase.row.family, s.calls[b].phase.now))
      && var returned := Call(s.calls[b].hash, Returned(Conflict(s.calls[b].phase.row.family)));
         s2.calls[b := returned] ==
           s.calls[a := Call(s.calls[a].hash, Returned(Session(s.calls[a].phase.prior, first.next)))][b := returned]
  {
    assert first.next != s.calls[a].phase.prior;
  }

  // ----- Password changes -----

  /** The commit of ChangePassword or ResetPassword, as far as refresh tokens go. */
  function AfterPasswordChange(s: State, user: Id, at: Time): State {
    s.(tokens := Revoke(s.tokens, OfUser(user), at))
  }

  /** All rows of a family belong to the user of any one of them. */
  lemma OneUserPerFamily(s: State, a: Id, b: Id)
    requires ChainsOk(s.log, s.chains) && a in s.log && b in s.log && s.log[a].family == s.log[b].family
    ensures s.log[a].user == s.log[b].user
  {
    var f := s.log[a].family;
    var chain := s.chains[f];
    assert ChainOk(s.log, f, chain);
    var i :| 0 <= i < |chain| && chain[i] == a;
    var j :| 0 <= j < |chain| && chain[j] == b;
    assert i < j ==> s.log[chain[i]].Session() == s.log[chain[j]].Session();
    assert j < i ==> s.log[chain[j]].Session() == s.log[chain[i]].Session();
  }

  lemma PasswordChangeKillsFamilies(s: State, user: Id, at: Time, a: Id)
    requires LogOk(s.tokens, s.log) && ChainsOk(s.log, s.chains) && a in s.log && s.log[a].user == user
    ensures Dead(AfterPasswordChange(s, user, at).tokens, s.log[a].family)
  {
    forall id | id in s.tokens && s.tokens[id].family == s.log[a].family
      ensures s.tokens[id].user == user
    {
      FamilyIsOfUser(s, id, a);
    }
  }

  lemma FamilyIsOfUser(s: State, id: Id, a: Id)
    requires LogOk(s.tokens, s.log) && ChainsOk(s.log, s.chains) && a in s.log
    requires id in s.tokens && s.tokens[id].family == s.log[a].family
    ensures s.tokens[id].user == s.log[a].user
  {
    SameIdentity(s.tokens[id], s.log[id]);
    assert s.tokens[id].Session() == s.log[id].Session();
    OneUserPerFamily(s, id, a);
  }

  /** One token of the user that was inserted before the commit: its family is over. */
  lemma FamilyIsOver(s: State, user: Id, at: Time, run: seq<Event>, a: Id)
    requires Inv(s) && ValidRun(AfterPasswordChange(s, user, at), run)
    requires a in s.log && s.log[a].user == user
    ensures var t := Exec(AfterPasswordChange(s, user, at), run);
      Dead(t.tokens, s.log[a].family) && NoNewSession(s, t, s.log[a].family)
  {
    RevokeKeepsInv(s, OfUser(user), at);
    PasswordChangeKillsFamilies(s, user, at, a);
    DeadFamilyStaysDead(AfterPasswordChange(s, user, at), run, s.log[a].family);
  }

  /** A family that existed at the commit and holds a row of the user later held one at the commit. */
  lemma OldFamilyIsOver(s: State, user: Id, at: Time, run: seq<Event>, id: Id)
    requires Inv(s) && ValidRun(AfterPasswordChange(s, user, at), run)
    requires var t := Exec(AfterPasswordChange(s, user, at), run);
      id in t.tokens && t.tokens[id].user == user && t.tokens[id].family in s.chains
    ensures !Exec(AfterPasswordChange(s, user, at), run).tokens[id].Live()
  {
    var c := AfterPasswordChange(s, user, at);
    var t := Exec(c, run);
    RevokeKeepsInv(s, OfUser(user), at);
    RunKeepsInv(c, run);
    SameIdentity(t.tokens[id], t.log[id]);
    LastIsLogged(s.log, s.chains, t.tokens[id].family);
    var a := s.chains[t.tokens[id].family][|s.chains[t.tokens[id].family]| - 1];
    OneUserPerFamily(t, a, id);
    FamilyIsOver(s, user, at, run, a);
  }

  /** Whatever the user has live after the commit belongs to families that did not exist at it. */
  lemma LiveFamiliesAreNew(s: State, user: Id, at: Time, run: seq<Event>)
    requires Inv(s) && ValidRun(AfterPasswordChange(s, user, at), run)
    ensures var t := Exec(AfterPasswordChange(s, user, at), run);
      forall id :: id in t.tokens && t.tokens[id].user == user && t.tokens[id].Live() ==>
        t.tokens[id].family !in s.chains
  {
    var t := Exec(AfterPasswordChange(s, user, at), run);
    if id :| id in t.tokens && t.tokens[id].user == user && t.tokens[id].Live() && t.tokens[id].family in s.chains {
      OldFamilyIsOver(s, user, at, run, id);
    }
  }

  /** No family of the user that existed at the commit gives a session after it. */
  lemma OldFamiliesGiveNoSession(s: State, user: Id, at: Time, run: seq<Event>)
    requires Inv(s) && ValidRun(AfterPasswordChange(s, user, at), run)
    ensures var t := Exec(AfterPasswordChange(s, user, at), run);
      forall a :: a in s.log && s.log[a].user == user ==> NoNewSession(s, t, s.log[a].family)
  {
    forall a | a in s.log && s.log[a].user == user
      ensures NoNewSession(s, Exec(AfterPasswordChange(s, user, at), run), s.log[a].family)
    {
      FamilyIsOver(s, user, at, run, a);
    }
  }

  /** After the commit, no token of the user that was ever inserted, nor any descendant of one, is
      rotated again, not even by a Refresh that had already read its row; whatever the user has live
      later belongs to families that did not exist at the commit. */
  lemma PasswordChangeEndsSessions(s: State, user: Id, at: Time, run: seq<Event>)
    requires Inv(s) && ValidRun(AfterPasswordChange(s, user, at), run)
    ensures var t := Exec(AfterPasswordChange(s, user, at), run);
      && (forall id :: id in t.tokens && t.tokens[id].user == user && t.tokens[id].Live() ==>
           t.tokens[id].family !in s.chains)
      && (forall a :: a in s.log && s.log[a].user == user ==> NoNewSession(s, t, s.log[a].family))
  {
    LiveFamiliesAreNew(s, user, at, run);
    OldFamiliesGiveNoSession(s, user, at, run);
  }

  /** Rows outside the scope of a revoking statement are untouched; live rows inside it are revoked. */
  lemma RevokeTouchesOnlyItsScope(tokens: Table, scope: Scope, at: Time, id: Id)
    requires id in tokens
    ensures var after := Revoke(tokens, scope, at);
      && id in after
      && (!InScope(scope, tokens[id]) || !tokens[id].Live() ==> after[id] == tokens[id])
      && (InScope(scope, tokens[id]) ==> !after[id].Live())
      && after[id].Identity() == tokens[id].Identity() && after[id].replacedBy == tokens[id].replacedBy
  {
  }

  // ----- Retention purge -----

  /** A purge takes away exactly the first rows of what is stored of each chain. */
  lemma PurgeRemovesPrefix(s: State, f: Id)
    requires Inv(s) && f in s.chains
    ensures var chain, after := s.chains[f], Purge(s.tokens, s.clock);
      && Gone(s.tokens, chain) <= Gone(after, chain)
      && (forall i :: 0 <= i < |chain| ==> (chain[i] in s.tokens <==> Gone(s.tokens, chain) <= i))
      && (forall i :: 0 <= i < |chain| ==> (chain[i] in after <==> Gone(after, chain) <= i))
  {
    PurgeKeepsTable(s);
    StoredIsSuffix(s.tokens, s.chains[f]);
    StoredIsSuffix(Purge(s.tokens, s.clock), s.chains[f]);
  }

  lemma StoredIsSuffix(tokens: Table, chain: seq<Id>)
    requires LinksOk(tokens, chain)
    ensures forall i :: 0 <= i < |chain| ==> (chain[i] in tokens <==> Gone(tokens, chain) <= i)
  {
    var n := Gone(tokens, chain);
    forall i | n < i < |chain| ensures chain[i] in tokens {
      assert chain[n] in tokens;
    }
  }

  /** The purge statement removes exactly the rows that have expired, and never changes anyone's list of
      active sessions. */
  lemma PurgeKeepsActiveList(s: State, user: Id, now: Time, list: seq<Id>)
    requires s.clock <= now
    ensures var after := Apply(s, PurgeStatement).tokens;
      && (forall id :: id in after <==> id in s.tokens && s.tokens[id].expiresAt >= s.clock)
      && (forall id :: id in after ==> after[id] == s.tokens[id])
      && (IsActiveList(after, user, now, list) <==> IsActiveList(s.tokens, user, now, list))
  {
  }
}
