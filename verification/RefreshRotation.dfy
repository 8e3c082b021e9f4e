/**
 Refresh-token rotation (`apps/core/auth_api/views.py`, `apps/core/auth_api/services/tokens.py`),
 the rotation of section 6 of RFC 6749.

 A request takes the try-lock of its refresh token, reads the token row, and then, in one
 database transaction, revokes it and mints a successor pair. Logins and logouts run at any
 moment and take no lock. The lock is the transition system of module `Locks`.
 */
module RefreshRotation {
  import Locks

  type TokenId = string    // the lock's key is an injective digest of the token, so the token itself

  /** A refresh-token row. `lineage` names the login it descends from, `access` its access token. */
  datatype Token = Token(user: string, lineage: nat, revoked: bool, access: nat)

  /** One successful exchange, in the order they happened. */
  datatype Exchange = Exchange(parent: TokenId, child: TokenId)

  // ---------------------------------------------------------------------------------------
  // The endpoint
  // ---------------------------------------------------------------------------------------

  datatype Reply =
    | Busy                                     // 409, another refresh is in flight
    | Unknown                                  // 401, no such token
    | Revoked                                  // 401, token was revoked
    | MintFailed                               // 500, the transaction rolled back
    | Pair(access: nat, refresh: TokenId)

  class TokenStore {
    var tokens: map<TokenId, Token>

    /** `rt.revoke()`: silently keeps a row that is revoked already. */
    method Revoke(id: TokenId)
      requires id in tokens
      modifies this
      ensures tokens == old(tokens)[id := old(tokens)[id].(revoked := true)]
    {
      tokens := tokens[id := tokens[id].(revoked := true)];
    }

    /** `mint_pair`: a fresh access token and a fresh refresh token for the same user. */
    method MintPair(user: string, lineage: nat, access: nat, id: TokenId)
      requires id !in tokens
      modifies this
      ensures tokens == old(tokens)[id := Token(user, lineage, false, access)]
    {
      tokens := tokens[id := Token(user, lineage, false, access)];
    }

    /** `TokensRefreshView.post`, with the outcome of the try-lock, the random values of the new pair
        and whether minting raises as parameters. `meanwhile` is the table when the transaction
        starts: logins and logouts may have added and revoked rows since the check. */
    method Post(id: TokenId, acquired: bool, access: nat, succ: TokenId, mintFails: bool,
                meanwhile: map<TokenId, Token>)
      returns (reply: Reply)
      requires OnlyLoginsAndLogouts(tokens, meanwhile) && succ !in meanwhile
      modifies this
      ensures reply == Busy <==> !acquired
      ensures reply == Unknown <==> acquired && id !in old(tokens)
      ensures reply == Revoked <==> acquired && id in old(tokens) && old(tokens)[id].revoked
      ensures reply.Busy? || reply.Unknown? || reply.Revoked? ==> tokens == old(tokens)
      ensures reply == MintFailed <==> acquired && id in old(tokens) && !old(tokens)[id].revoked && mintFails
      ensures reply.MintFailed? ==> tokens == meanwhile
      ensures reply.Pair? ==> reply == Pair(access, succ)
      ensures reply.Pair? ==>
                && (forall t :: t in meanwhile && t != id ==> t in tokens && tokens[t] == meanwhile[t])
                && tokens.Keys == meanwhile.Keys + {succ}
                && tokens[id] == meanwhile[id].(revoked := true)
                && tokens[succ] == Token(meanwhile[id].user, meanwhile[id].lineage, false, access)
                && tokens == Exchanged(meanwhile, id, access, succ)
    {
      if !acquired {
        return Busy;
      }
      if id !in tokens {
        return Unknown;
      }
      if tokens[id].revoked {
        return Revoked;
      }
      var user, lineage := tokens[id].user, tokens[id].lineage;
      tokens := meanwhile;
      Revoke(id);
      if mintFails {
        tokens := meanwhile;      // the transaction rolls back
        return MintFailed;
      }
      MintPair(user, lineage, access, succ);
      return Pair(access, succ);
    }
  }

  /** What other endpoints can do to the table: add rows and revoke rows. */
  predicate OnlyLoginsAndLogouts(before: map<TokenId, Token>, after: map<TokenId, Token>) {
    forall id :: id in before ==>
      id in after && (after[id] == before[id] || after[id] == before[id].(revoked := true))
  }

  /** The table after revoking `id` and minting `succ` from it. */
  function Exchanged(tokens: map<TokenId, Token>, id: TokenId, access: nat, succ: TokenId): map<TokenId, Token>
    requires id in tokens
  {
    tokens[id := tokens[id].(revoked := true)][succ := Token(tokens[id].user, tokens[id].lineage, false, access)]
  }

  // ---------------------------------------------------------------------------------------
  // All requests at once
  // ---------------------------------------------------------------------------------------

  /** `passed` holds the requests that read their row as live and have not committed yet. */
  datatype State = State(lock: Locks.State, tokens: map<TokenId, Token>, passed: set<Locks.Owner>,
                         lineages: nat, exchanges: seq<Exchange>)

  datatype Step =
    | Lock(step: Locks.Step)
    | Read(who: Locks.Owner)
    | Commit(who: Locks.Owner, access: nat, succ: TokenId)
    | Login(user: string, access: nat, succ: TokenId)
    | Logout(id: TokenId)

  /** The request holds the lock as far as `cache.add` told it. */
  predicate Inside(s: State, a: Locks.Owner) {
    a in s.lock.holders && s.lock.holders[a].phase == Locks.Held
  }

  predicate Enabled(s: State, step: Step) {
    match step
    case Lock(_) => true
    case Read(a) => Inside(s, a)
    case Commit(a, _, succ) =>
      Inside(s, a) && a in s.passed && s.lock.holders[a].key in s.tokens && succ !in s.tokens
    case Login(_, _, succ) => succ !in s.tokens
    case Logout(id) => id in s.tokens
  }

  function Apply(s: State, step: Step): State {
    if !Enabled(s, step) then s else
    match step
    case Lock(l) => s.(lock := Locks.Apply(s.lock, l))
    case Read(a) =>
      var id := s.lock.holders[a].key;
      if id in s.tokens && !s.tokens[id].revoked then s.(passed := s.passed + {a}) else s
    case Commit(a, access, succ) =>
      var id := s.lock.holders[a].key;
      s.(tokens := Exchanged(s.tokens, id, access, succ), passed := s.passed - {a},
         exchanges := s.exchanges + [Exchange(id, succ)])
    case Login(user, access, succ) =>
      s.(tokens := s.tokens[succ := Token(user, s.lineages, false, access)], lineages := s.lineages + 1)
    case Logout(id) =>
      s.(tokens := s.tokens[id := s.tokens[id].(revoked := true)])
  }

  /** Each critical section finishes within the lock timeout: reading and committing happen before
      the holder's deadline, and the halves of a release are not split by an expiry. */
  predicate Timely(s: State, step: Step) {
    Enabled(s, step) ==>
      match step
      case Lock(l) => Locks.Timely(s.lock, l)
      case Read(a) => Locks.InLease(s.lock, a)
      case Commit(a, _, _) => Locks.InLease(s.lock, a)
      case _ => true
  }

  const Start := State(Locks.Start, map[], {}, 0, [])

  function After(s: State, steps: seq<Step>): State
    decreases |steps|
  {
    if steps == [] then s else After(Apply(s, steps[0]), steps[1..])
  }

  predicate TimelyRun(s: State, steps: seq<Step>)
    decreases |steps|
  {
    steps == [] || (Timely(s, steps[0]) && TimelyRun(Apply(s, steps[0]), steps[1..]))
  }

  // ---------------------------------------------------------------------------------------
  // Invariants
  // ---------------------------------------------------------------------------------------

  ghost predicate WasExchanged(s: State, id: TokenId) {
    exists i :: 0 <= i < |s.exchanges| && s.exchanges[i].parent == id
  }

  ghost predicate AtMostOnce(s: State) {
    forall i, j :: 0 <= i < j < |s.exchanges| ==> s.exchanges[i].parent != s.exchanges[j].parent
  }

  /** Exchanges link rows of the table: the parent is revoked, the child is of the same user and lineage. */
  ghost predicate Linked(s: State) {
    forall i :: 0 <= i < |s.exchanges| ==>
      && s.exchanges[i].parent in s.tokens && s.tokens[s.exchanges[i].parent].revoked
      && s.exchanges[i].child in s.tokens
      && s.tokens[s.exchanges[i].child].lineage == s.tokens[s.exchanges[i].parent].lineage
      && s.tokens[s.exchanges[i].child].user == s.tokens[s.exchanges[i].parent].user
  }

  /** A request that passed the check and is still within its lease targets a token nobody exchanged. */
  ghost predicate CheckStillGood(s: State) {
    forall a :: a in s.passed && Locks.InLease(s.lock, a) ==> !WasExchanged(s, s.lock.holders[a].key)
  }

  /** Each lineage has one end: two tokens of it that were never exchanged are the same. */
  ghost predicate OneTail(s: State) {
    && (forall t, u | t in s.tokens && u in s.tokens && s.tokens[t].lineage == s.tokens[u].lineage ::
          !WasExchanged(s, t) && !WasExchanged(s, u) ==> t == u)
    && (forall t :: t in s.tokens ==> s.tokens[t].lineage < s.lineages)
  }

  ghost predicate Inv(s: State) {
    && Locks.LeaseInv(s.lock)
    && AtMostOnce(s)
    && Linked(s)
    && CheckStillGood(s)
    && OneTail(s)
    && (forall a :: a in s.passed ==> a in s.lock.holders)
  }

  lemma LockStepKeepsInv(s: State, l: Locks.Step)
    requires Inv(s) && Locks.Timely(s.lock, l)
    ensures Inv(Apply(s, Lock(l)))
  {
    Locks.StepKeepsLeaseInv(s.lock, l);
    var s' := Apply(s, Lock(l));
    forall a | a in s'.passed && Locks.InLease(s'.lock, a)
      ensures !WasExchanged(s', s'.lock.holders[a].key)
    {
      Locks.StepKeepsHolder(s.lock, l, a);
      assert !WasExchanged(s, s.lock.holders[a].key);
    }
    forall a | a in s'.passed
      ensures a in s'.lock.holders
    {
      Locks.StepKeepsHolder(s.lock, l, a);
    }
  }

  lemma CommitKeepsInv(s: State, a: Locks.Owner, access: nat, succ: TokenId)
    requires Inv(s) && Enabled(s, Commit(a, access, succ)) && Locks.InLease(s.lock, a)
    ensures Inv(Apply(s, Commit(a, access, succ)))
  {
    var id := s.lock.holders[a].key;
    var s' := Apply(s, Commit(a, access, succ));
    assert !WasExchanged(s, id);
    ExchangedAfter(s, s', Exchange(id, succ));
    forall b | b in s'.passed && Locks.InLease(s'.lock, b)
      ensures !WasExchanged(s', s'.lock.holders[b].key)
    {
      assert !WasExchanged(s, s.lock.holders[b].key);
      if s.lock.holders[b].key == id {
        assert false;    // two owners of one entry
      }
    }
    assert !WasExchanged(s, succ) by { assert succ !in s.tokens; }
  }

  lemma ExchangedAfter(s: State, s': State, e: Exchange)
    requires s'.exchanges == s.exchanges + [e]
    ensures forall t :: WasExchanged(s', t) <==> (WasExchanged(s, t) || t == e.parent)
  {
    forall t ensures WasExchanged(s', t) <==> (WasExchanged(s, t) || t == e.parent) {
      if WasExchanged(s, t) {
        var i :| 0 <= i < |s.exchanges| && s.exchanges[i].parent == t;
        assert s'.exchanges[i].parent == t;
      }
      if t == e.parent {
        assert s'.exchanges[|s.exchanges|].parent == t;
      }
    }
  }

  lemma StepKeepsInv(s: State, step: Step)
    requires Inv(s) && Timely(s, step)
    ensures Inv(Apply(s, step))
  {
    if !Enabled(s, step) { return; }
    var s' := Apply(s, step);
    match step
    case Lock(l) => LockStepKeepsInv(s, l);
    case Commit(a, access, succ) => CommitKeepsInv(s, a, access, succ);
    case Read(a) =>
      assert s'.exchanges == s.exchanges;
      var id := s.lock.holders[a].key;
      if id in s.tokens && !s.tokens[id].revoked {
        assert !WasExchanged(s, id);
      }
      assert forall t :: WasExchanged(s', t) <==> WasExchanged(s, t);
    case Login(user, access, succ) =>
      assert forall t :: WasExchanged(s', t) <==> WasExchanged(s, t);
    case Logout(id) =>
      assert forall t :: WasExchanged(s', t) <==> WasExchanged(s, t);
  }

  lemma {:induction false} RunKeepsInv(s: State, steps: seq<Step>)
    requires Inv(s) && TimelyRun(s, steps)
    ensures Inv(After(s, steps))
    decreases |steps|
  {
    if steps != [] {
      StepKeepsInv(s, steps[0]);
      RunKeepsInv(Apply(s, steps[0]), steps[1..]);
    }
  }

  // ---------------------------------------------------------------------------------------
  // What rotation promises
  // ---------------------------------------------------------------------------------------

  /** In every timely interleaving, with logins and logouts at any moment: no token is exchanged
      twice, an exchanged token is revoked, and a lineage has at most one live refresh token. */
  lemma RotationIsSafe(steps: seq<Step>)
    requires TimelyRun(Start, steps)
    ensures AtMostOnce(After(Start, steps))
    ensures Linked(After(Start, steps))
    ensures var tokens := After(Start, steps).tokens;
            forall t, u | t in tokens && u in tokens && tokens[t].lineage == tokens[u].lineage ::
              !tokens[t].revoked && !tokens[u].revoked ==> t == u
  {
    RunKeepsInv(Start, steps);
  }

  /** One exchange: the old token ends revoked, exactly one row appears, it is live and carries the
      same user and lineage, and every other row is as before. */
  lemma ExchangeMakesOneSuccessor(s: State, a: Locks.Owner, access: nat, succ: TokenId)
    requires Enabled(s, Commit(a, access, succ))
    ensures var s' := Apply(s, Commit(a, access, succ)); var id := s.lock.holders[a].key;
            && s'.tokens.Keys == s.tokens.Keys + {succ}
            && s'.tokens[id].revoked && !s'.tokens[succ].revoked
            && s'.tokens[succ].user == s.tokens[id].user
            && s'.tokens[succ].lineage == s.tokens[id].lineage && s'.tokens[succ].access == access
            && s'.tokens - {id, succ} == s.tokens - {id}
  {
    var id := s.lock.holders[a].key;
    assert succ != id;
  }

  /** The time bound is needed everywhere: from any state a timely run reaches, a request that passed the
      check and outlived its lease, on a free key and a live token, and one newcomer who is in time, exchange
      the token twice. */
  lemma LateCommitExchangesTwice(steps: seq<Step>, a: Locks.Owner, b: Locks.Owner, timeout: nat,
                                 access: nat, x: TokenId, y: TokenId)
    requires TimelyRun(Start, steps)
    requires var s := After(Start, steps);
             && Inside(s, a) && a in s.passed && !Locks.InLease(s.lock, a)
             && !Locks.Live(s.lock.cache, s.lock.holders[a].key, s.lock.now)
             && s.lock.holders[a].key in s.tokens && !s.tokens[s.lock.holders[a].key].revoked
             && b !in s.lock.holders && x !in s.tokens && y !in s.tokens && x != y
    requires timeout > 0
    ensures var s := After(Start, steps); var id := s.lock.holders[a].key;
            var newcomer := [Lock(Locks.Acquire(b, id, timeout)), Read(b), Commit(b, access, x)];
            var s' := Apply(After(s, newcomer), Commit(a, access, y));
            && TimelyRun(s, newcomer)
            && s'.exchanges == s.exchanges + [Exchange(id, x), Exchange(id, y)]
            && !AtMostOnce(s')
  {
    var s := After(Start, steps);
    var id := s.lock.holders[a].key;
    var newcomer := [Lock(Locks.Acquire(b, id, timeout)), Read(b), Commit(b, access, x)];
    assert newcomer[1..] == [Read(b), Commit(b, access, x)] && newcomer[1..][1..] == [Commit(b, access, x)];
    var s1 := Apply(s, newcomer[0]);
    var s2 := Apply(s1, newcomer[1]);
    var s3 := Apply(s2, newcomer[2]);
    assert Inside(s1, b) && Locks.InLease(s1.lock, b) && b in s2.passed;
    assert s3.exchanges == s.exchanges + [Exchange(id, x)];
    AfterStep(s, newcomer);
    AfterStep(s1, newcomer[1..]);
    AfterStep(s2, newcomer[1..][1..]);
    assert After(s, newcomer) == s3;
    TimelyStep(s, newcomer);
    TimelyStep(s1, newcomer[1..]);
    TimelyStep(s2, newcomer[1..][1..]);
    var s4 := Apply(s3, Commit(a, access, y));
    assert s4.exchanges == s.exchanges + [Exchange(id, x), Exchange(id, y)];
    var n := |s.exchanges|;
    assert s4.exchanges[n].parent == s4.exchanges[n + 1].parent;
  }

  lemma TimelyStep(s: State, steps: seq<Step>)
    requires steps != []
    ensures TimelyRun(s, steps) <==> Timely(s, steps[0]) && TimelyRun(Apply(s, steps[0]), steps[1..])
  {
  }

  /** An instance, from the empty state: a request that outlives its lock commits after a
      second request has exchanged the same token. */
  lemma OverrunExchangesTwice()
    ensures exists steps: seq<Step> :: !AtMostOnce(After(Start, steps))
  {
    var rt := "rt";
    var s0 := Apply(Start, Login("u", 0, rt));
    var s1 := Apply(s0, Lock(Locks.Acquire(1, rt, 30)));
    var s2 := Apply(s1, Read(1));
    var s3 := Apply(s2, Lock(Locks.Tick(30)));
    var s4 := Apply(s3, Lock(Locks.Acquire(2, rt, 30)));
    var s5 := Apply(s4, Read(2));
    var s6 := Apply(s5, Commit(2, 1, "a"));
    var s7 := Apply(s6, Commit(1, 2, "b"));
    var steps := [Login("u", 0, rt), Lock(Locks.Acquire(1, rt, 30)), Read(1), Lock(Locks.Tick(30)),
                  Lock(Locks.Acquire(2, rt, 30)), Read(2), Commit(2, 1, "a"), Commit(1, 2, "b")];
    assert s7.exchanges == [Exchange(rt, "a"), Exchange(rt, "b")];
    AfterStep(Start, steps);
    AfterStep(s0, steps[1..]);
    AfterStep(s1, steps[2..]);
    AfterStep(s2, steps[3..]);
    AfterStep(s3, steps[4..]);
    AfterStep(s4, steps[5..]);
    AfterStep(s5, steps[6..]);
    AfterStep(s6, steps[7..]);
    assert After(Start, steps) == s7;
    assert !AtMostOnce(s7) by {
      assert s7.exchanges[0].parent == s7.exchanges[1].parent;
    }
  }

  lemma AfterStep(s: State, steps: seq<Step>)
    requires steps != []
    ensures After(s, steps) == After(Apply(s, steps[0]), steps[1..])
  {
  }
}
