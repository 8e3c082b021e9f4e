/**
 The outbound-email queue (`apps/core/mailer/services/mailer.py`).

 Drain workers claim, complete, fail and reap rows by conditional UPDATEs; nothing else protects a
 row. `attempts` doubles as a fencing token: a worker remembers the value it claimed with.
 The table is keyed by the unique `idempotency_key`, which stands for the row id as well (rows are
 never deleted and keys never change).
 */
module MailQueue {
  import opened Options
  import Text

  type Key = string

  datatype EmailState = Pending | Sending | Sent | Failed

  /** What to send; the queue never changes it. */
  datatype Mail = Mail(toEmail: string, template: string, subject: string, props: map<string, string>)

  datatype Row = Row(mail: Mail, state: EmailState, attempts: nat, error: string,
                     scheduledAt: int, startedAt: Option<int>, sentAt: Option<int>)

  /** The settings EMAIL_SEND_MAX_ATTEMPTS, EMAIL_SEND_STALE_SECONDS and EMAIL_SEND_RETRY_SECONDS. */
  datatype Settings = Settings(cap: nat, stale: nat, retry: nat)

  /** A worker's copy of the row it claimed, refreshed right after the claim. */
  datatype Claim = Claim(key: Key, attempts: nat, scheduledAt: int)

  const REAPED := "reaped after stale timeout (attempts exhausted)"

  /** The row a first enqueue inserts; the address is stripped and lower-cased. */
  function FreshRow(mail: Mail, scheduledAt: int): Row {
    Row(mail.(toEmail := Text.Lower(Text.Strip(mail.toEmail))), Pending, 0, "", scheduledAt, None, None)
  }

  // ---------------------------------------------------------------------------------------
  // The conditional updates, row by row
  // ---------------------------------------------------------------------------------------

  /** The due-predicate of `iter_due`. */
  predicate Due(cfg: Settings, r: Row, ts: int) {
    r.state == Pending && r.scheduledAt <= ts && r.attempts < cfg.cap
  }

  /** The guard of the claiming UPDATE; it does not look at `scheduled_at` again. */
  predicate Claimable(cfg: Settings, r: Row) {
    r.state == Pending && r.attempts < cfg.cap
  }

  function ClaimRow(r: Row, ts: int): Row {
    r.(state := Sending, startedAt := Some(ts), attempts := r.attempts + 1)
  }

  /** The guard of `complete_sent` and `fail`: this very claim is still the current one. */
  predicate Owns(r: Row, attempts: nat) {
    r.state == Sending && r.attempts == attempts
  }

  function CompleteRow(r: Row, ts: int): Row {
    r.(state := Sent, sentAt := Some(ts), error := "")
  }

  function FailRow(cfg: Settings, r: Row, c: Claim, error: string, ts: int): Row {
    if c.attempts >= cfg.cap then r.(state := Failed, error := error, scheduledAt := c.scheduledAt)
    else r.(state := Pending, error := error, scheduledAt := ts + cfg.retry)
  }

  predicate Stale(cfg: Settings, r: Row, ts: int) {
    r.state == Sending && r.startedAt.Some? && r.startedAt.value < ts - cfg.stale
  }

  function ReapExhaustedRow(cfg: Settings, r: Row, ts: int): Row {
    if Stale(cfg, r, ts) && r.attempts >= cfg.cap then r.(state := Failed, error := REAPED) else r
  }

  function ReapRetryableRow(cfg: Settings, r: Row, ts: int): Row {
    if Stale(cfg, r, ts) && r.attempts < cfg.cap then r.(state := Pending) else r
  }

  // ---------------------------------------------------------------------------------------
  // The service
  // ---------------------------------------------------------------------------------------

  class Mailer {
    const cfg: Settings
    var rows: map<Key, Row>

    constructor (cfg: Settings)
      ensures this.cfg == cfg && rows == map[]
    {
      this.cfg := cfg;
      rows := map[];
    }

    /** A repeated key returns the existing row and writes nothing. */
    method Enqueue(key: Key, mail: Mail, scheduledAt: int) returns (created: bool)
      modifies this
      ensures created <==> key !in old(rows)
      ensures created ==>
                rows == old(rows)[key := Row(mail.(toEmail := Text.Lower(Text.Strip(mail.toEmail))), Pending, 0, "",
                                             scheduledAt, None, None)]
      ensures rows == StepRows(cfg, old(rows), Enqueued(key, mail, scheduledAt))
      ensures forall k :: k in old(rows) ==> k in rows && rows[k] == old(rows)[k]
    {
      created := key !in rows;
      if created {
        rows := rows[key := FreshRow(mail, scheduledAt)];
      }
    }

    /** One claiming UPDATE followed by `refresh_from_db`. */
    method TryClaim(key: Key, ts: int) returns (won: Option<Claim>)
      modifies this
      ensures rows == StepRows(cfg, old(rows), Claimed(key, ts))
      ensures won.Some? <==> key in old(rows) && old(rows)[key].state == Pending && old(rows)[key].attempts < cfg.cap
      ensures won.None? ==> rows == old(rows)
      ensures won.Some? ==>
                var r := old(rows)[key];
                rows == old(rows)[key := Row(r.mail, Sending, r.attempts + 1, r.error, r.scheduledAt, Some(ts), r.sentAt)]
      ensures won.Some? ==> won.value == Claim(key, old(rows)[key].attempts + 1, old(rows)[key].scheduledAt)
    {
      if key in rows && Claimable(cfg, rows[key]) {
        rows := rows[key := ClaimRow(rows[key], ts)];
        return Some(Claim(key, rows[key].attempts, rows[key].scheduledAt));
      }
      return None;
    }

    /** `claim_due`, over the candidate keys the due query returned; the list may be outdated by the
        time a candidate is reached. */
    method ClaimDue(candidates: seq<Key>, ts: int, limit: Option<nat>) returns (claims: seq<Claim>)
      modifies this
      ensures (rows, claims) == ClaimLoop(cfg, old(rows), [], candidates, ts, limit)
      ensures ClaimedFrom(cfg, old(rows), rows, claims, ts)
    {
      claims := [];
      var i := 0;
      while i < |candidates|
        invariant 0 <= i <= |candidates|
        invariant ClaimLoop(cfg, rows, claims, candidates[i..], ts, limit)
                  == ClaimLoop(cfg, old(rows), [], candidates, ts, limit)
      {
        if limit.Some? && |claims| >= limit.value {
          break;
        }
        assert candidates[i..][1..] == candidates[i + 1..];
        var won := TryClaim(candidates[i], ts);
        if won.Some? {
          claims := claims + [won.value];
        }
        i := i + 1;
      }
      ClaimDueIsExact(cfg, old(rows), old(rows), [], candidates, ts, limit);
    }

    /** The first UPDATE of `reap_stale`, and the number of rows it matched. */
    method ReapExhausted(ts: int) returns (n: nat)
      modifies this
      ensures rows == StepRows(cfg, old(rows), ReapedExhausted(ts))
      ensures n == |StaleKeys(cfg, old(rows), ts, true)|
    {
      n := |StaleKeys(cfg, rows, ts, true)|;
      rows := map k | k in rows :: ReapExhaustedRow(cfg, rows[k], ts);
    }

    /** The second UPDATE of `reap_stale`. */
    method ReapRetryable(ts: int) returns (n: nat)
      modifies this
      ensures rows == StepRows(cfg, old(rows), ReapedRetryable(ts))
      ensures n == |StaleKeys(cfg, old(rows), ts, false)|
    {
      n := |StaleKeys(cfg, rows, ts, false)|;
      rows := map k | k in rows :: ReapRetryableRow(cfg, rows[k], ts);
    }

    /** `reap_stale` run without interruption: every stale row leaves `Sending`, to `Failed` at the
        cap and back to `Pending` below it; every other row is untouched; the count is their number. */
    method ReapStale(ts: int) returns (reaped: nat)
      modifies this
      ensures rows == Reaped(cfg, old(rows), ts)
      ensures reaped == |set k | k in old(rows) && old(rows)[k].state == Sending && old(rows)[k].startedAt.Some?
                                 && old(rows)[k].startedAt.value + cfg.stale < ts|
    {
      var exhausted := ReapExhausted(ts);
      var retryable := ReapRetryable(ts);
      ReapingTwiceCoversStale(cfg, old(rows), ts);
      assert (set k | k in old(rows) && Stale(cfg, old(rows)[k], ts))
          == set k | k in old(rows) && old(rows)[k].state == Sending && old(rows)[k].startedAt.Some?
                     && old(rows)[k].startedAt.value + cfg.stale < ts;
      return exhausted + retryable;
    }

    method CompleteSent(c: Claim, ts: int) returns (won: bool)
      modifies this
      ensures won <==> c.key in old(rows) && old(rows)[c.key].state == Sending && old(rows)[c.key].attempts == c.attempts
      ensures rows == StepRows(cfg, old(rows), Completed(c, ts))
      ensures won ==>
                var r := old(rows)[c.key];
                rows == old(rows)[c.key := Row(r.mail, Sent, r.attempts, "", r.scheduledAt, r.startedAt, Some(ts))]
      ensures !won ==> rows == old(rows)
    {
      won := c.key in rows && Owns(rows[c.key], c.attempts);
      if won {
        rows := rows[c.key := CompleteRow(rows[c.key], ts)];
      }
    }

    method Fail(c: Claim, error: string, ts: int) returns (won: bool)
      modifies this
      ensures won <==> c.key in old(rows) && old(rows)[c.key].state == Sending && old(rows)[c.key].attempts == c.attempts
      ensures rows == StepRows(cfg, old(rows), FailedSend(c, error, ts))
      ensures won && c.attempts < cfg.cap ==>
                var r := old(rows)[c.key];
                rows == old(rows)[c.key := Row(r.mail, Pending, r.attempts, error, ts + cfg.retry, r.startedAt, r.sentAt)]
      ensures won && c.attempts >= cfg.cap ==>
                var r := old(rows)[c.key];
                rows == old(rows)[c.key := Row(r.mail, Failed, r.attempts, error, c.scheduledAt, r.startedAt, r.sentAt)]
      ensures !won ==> rows == old(rows)
    {
      won := c.key in rows && Owns(rows[c.key], c.attempts);
      if won {
        rows := rows[c.key := FailRow(cfg, rows[c.key], c, error, ts)];
      }
    }
  }

  /** The stale rows at the cap, or those below it. */
  function StaleKeys(cfg: Settings, rows: map<Key, Row>, ts: int, atCap: bool): set<Key> {
    set k | k in rows && Stale(cfg, rows[k], ts) && (rows[k].attempts >= cfg.cap) == atCap
  }

  /** The table after the reaper: a row that has been sending since before the stale window goes to failed at
      the cap and to pending below it, and nothing else changes. */
  function Reaped(cfg: Settings, rows: map<Key, Row>, ts: int): (after: map<Key, Row>)
    ensures after.Keys == rows.Keys
    ensures forall k :: k in after ==> !Stale(cfg, after[k], ts)
  {
    map k | k in rows ::
      if rows[k].state == Sending && rows[k].startedAt.Some? && rows[k].startedAt.value + cfg.stale < ts then
        if rows[k].attempts >= cfg.cap then rows[k].(state := Failed, error := REAPED)
        else rows[k].(state := Pending)
      else rows[k]
  }

  /** The two UPDATEs of the reaper match disjoint rows, so together they treat each stale row once. */
  lemma ReapingTwiceCoversStale(cfg: Settings, rows: map<Key, Row>, ts: int)
    ensures var mid := StepRows(cfg, rows, ReapedExhausted(ts));
            && StepRows(cfg, mid, ReapedRetryable(ts)) == Reaped(cfg, rows, ts)
            && |StaleKeys(cfg, rows, ts, true)| + |StaleKeys(cfg, mid, ts, false)|
               == |set k | k in rows && Stale(cfg, rows[k], ts)|
  {
    var mid := StepRows(cfg, rows, ReapedExhausted(ts));
    forall k | k in rows
      ensures ReapRetryableRow(cfg, mid[k], ts) == Reaped(cfg, rows, ts)[k]
      ensures k in StaleKeys(cfg, mid, ts, false) <==> k in StaleKeys(cfg, rows, ts, false)
    {
      ReapRow(cfg, rows[k], ts);
    }
    assert StepRows(cfg, mid, ReapedRetryable(ts)) == Reaped(cfg, rows, ts);
    assert StaleKeys(cfg, mid, ts, false) == StaleKeys(cfg, rows, ts, false);
    CountStale(cfg, rows, ts);
  }

  lemma ReapRow(cfg: Settings, r: Row, ts: int)
    ensures var mid := ReapExhaustedRow(cfg, r, ts);
            && (Stale(cfg, mid, ts) <==> Stale(cfg, r, ts) && r.attempts < cfg.cap)
            && mid.attempts == r.attempts
            && ReapRetryableRow(cfg, mid, ts) ==
               if !Stale(cfg, r, ts) then r
               else if r.attempts >= cfg.cap then r.(state := Failed, error := REAPED)
               else r.(state := Pending)
  {
  }

  lemma CountStale(cfg: Settings, rows: map<Key, Row>, ts: int)
    ensures |StaleKeys(cfg, rows, ts, true)| + |StaleKeys(cfg, rows, ts, false)|
            == |set k | k in rows && Stale(cfg, rows[k], ts)|
  {
    var exhausted, retryable := StaleKeys(cfg, rows, ts, true), StaleKeys(cfg, rows, ts, false);
    assert (set k | k in rows && Stale(cfg, rows[k], ts)) == exhausted + retryable;
    assert exhausted !! retryable;
  }

  function Keys(claims: seq<Claim>): (keys: seq<Key>)
    ensures |keys| == |claims|
    ensures forall i :: 0 <= i < |keys| ==> keys[i] == claims[i].key
  {
    seq(|claims|, i requires 0 <= i < |claims| => claims[i].key)
  }

  /** The loop of `claim_due`, from the table and the claims it has so far. */
  function ClaimLoop(cfg: Settings, rows: map<Key, Row>, claims: seq<Claim>, candidates: seq<Key>, ts: int,
                     limit: Option<nat>): (map<Key, Row>, seq<Claim>)
    decreases |candidates|
  {
    if candidates == [] || (limit.Some? && |claims| >= limit.value) then (rows, claims)
    else
      var k, rest := candidates[0], candidates[1..];
      if k in rows && Claimable(cfg, rows[k]) then
        ClaimLoop(cfg, rows[k := ClaimRow(rows[k], ts)],
                  claims + [Claim(k, rows[k].attempts + 1, rows[k].scheduledAt)], rest, ts, limit)
      else ClaimLoop(cfg, rows, claims, rest, ts, limit)
  }

  /** `claims` are distinct keys of rows that were pending below the cap. Each such row is sending now, since
      `ts`, with one more attempt, which is the claim's token; nothing else differs between `before` and
      `after`. */
  ghost predicate ClaimedFrom(cfg: Settings, before: map<Key, Row>, after: map<Key, Row>, claims: seq<Claim>, ts: int) {
    && Distinct(Keys(claims))
    && (forall c :: c in claims ==>
          && c.key in before && before[c.key].state == Pending && before[c.key].attempts < cfg.cap
          && c == Claim(c.key, before[c.key].attempts + 1, before[c.key].scheduledAt))
    && after.Keys == before.Keys
    && (forall k :: k in before && k in Keys(claims) ==>
          after[k] == Row(before[k].mail, Sending, before[k].attempts + 1, before[k].error, before[k].scheduledAt,
                          Some(ts), before[k].sentAt))
    && (forall k :: k in before && k !in Keys(claims) ==> after[k] == before[k])
  }

  /** A claim is safe from the reaper for the whole stale window after its pass started. */
  lemma FreshClaimsAreNotReaped(cfg: Settings, before: map<Key, Row>, after: map<Key, Row>, claims: seq<Claim>,
                                ts: int, now: int, c: Claim)
    requires ClaimedFrom(cfg, before, after, claims, ts) && c in claims && now <= ts + cfg.stale
    ensures c.key in after && after[c.key].startedAt == Some(ts)
    ensures c.key in StepRows(cfg, after, ReapedExhausted(now)) && c.key in StepRows(cfg, after, ReapedRetryable(now))
    ensures StepRows(cfg, after, ReapedExhausted(now))[c.key] == after[c.key]
    ensures StepRows(cfg, after, ReapedRetryable(now))[c.key] == after[c.key]
    ensures Reaped(cfg, after, now)[c.key] == after[c.key]
  {
    var i :| 0 <= i < |claims| && claims[i] == c;
    assert Keys(claims)[i] == c.key;
  }

  lemma ClaimOneMore(cfg: Settings, before: map<Key, Row>, mid: map<Key, Row>, claims: seq<Claim>, k: Key, ts: int)
    requires ClaimedFrom(cfg, before, mid, claims, ts) && k in mid && Claimable(cfg, mid[k])
    ensures var claims' := claims + [Claim(k, mid[k].attempts + 1, mid[k].scheduledAt)];
            && ClaimedFrom(cfg, before, mid[k := ClaimRow(mid[k], ts)], claims', ts)
            && Keys(claims') == Keys(claims) + [k]
  {
    assert k !in Keys(claims);
    assert Keys(claims + [Claim(k, mid[k].attempts + 1, mid[k].scheduledAt)]) == Keys(claims) + [k];
  }

  lemma ClaimLoopTakes(cfg: Settings, mid: map<Key, Row>, claims: seq<Claim>, candidates: seq<Key>, ts: int,
                       limit: Option<nat>)
    requires candidates != [] && !(limit.Some? && |claims| >= limit.value)
    ensures var k, rest := candidates[0], candidates[1..];
            ClaimLoop(cfg, mid, claims, candidates, ts, limit) ==
            if k in mid && Claimable(cfg, mid[k]) then
              ClaimLoop(cfg, mid[k := ClaimRow(mid[k], ts)],
                        claims + [Claim(k, mid[k].attempts + 1, mid[k].scheduledAt)], rest, ts, limit)
            else ClaimLoop(cfg, mid, claims, rest, ts, limit)
  {
  }

  /** Whatever the candidate list holds, `claim_due` changes exactly the rows it yields, each from
      pending to sending with one more attempt, and hands out each key once. */
  lemma {:induction false} ClaimDueIsExact(cfg: Settings, before: map<Key, Row>, mid: map<Key, Row>,
                                           claims: seq<Claim>, candidates: seq<Key>, ts: int, limit: Option<nat>)
    requires ClaimedFrom(cfg, before, mid, claims, ts)
    ensures var (after, won) := ClaimLoop(cfg, mid, claims, candidates, ts, limit);
            ClaimedFrom(cfg, before, after, won, ts)
    decreases |candidates|
  {
    if candidates != [] && !(limit.Some? && |claims| >= limit.value) {
      var k, rest := candidates[0], candidates[1..];
      ClaimLoopTakes(cfg, mid, claims, candidates, ts, limit);
      if k in mid && Claimable(cfg, mid[k]) {
        var mid', claims' := mid[k := ClaimRow(mid[k], ts)],
                             claims + [Claim(k, mid[k].attempts + 1, mid[k].scheduledAt)];
        ClaimOneMore(cfg, before, mid, claims, k, ts);
        ClaimDueIsExact(cfg, before, mid', claims', rest, ts, limit);
      } else {
        ClaimDueIsExact(cfg, before, mid, claims, rest, ts, limit);
      }
    }
  }

  /** It claims candidates only, never more than `limit`, and when it stops short of the limit no
      candidate is left claimable. */
  lemma {:induction false} ClaimDueStopsAtTheLimit(cfg: Settings, mid: map<Key, Row>, claims: seq<Claim>,
                                                   candidates: seq<Key>, ts: int, limit: Option<nat>)
    requires limit.Some? ==> |claims| <= limit.value
    ensures var (after, won) := ClaimLoop(cfg, mid, claims, candidates, ts, limit);
            && (forall c :: c in won ==> c in claims || c.key in candidates)
            && (limit.Some? ==> |won| <= limit.value)
            && (forall k :: k in mid && !Claimable(cfg, mid[k]) ==> k in after && !Claimable(cfg, after[k]))
            && (limit.None? || |won| < limit.value ==>
                  forall k :: k in candidates && k in mid ==> k in after && !Claimable(cfg, after[k]))
    decreases |candidates|
  {
    if candidates != [] && !(limit.Some? && |claims| >= limit.value) {
      var k, rest := candidates[0], candidates[1..];
      assert candidates == [k] + rest;
      if k in mid && Claimable(cfg, mid[k]) {
        ClaimDueStopsAtTheLimit(cfg, mid[k := ClaimRow(mid[k], ts)],
                                claims + [Claim(k, mid[k].attempts + 1, mid[k].scheduledAt)], rest, ts, limit);
      } else {
        ClaimDueStopsAtTheLimit(cfg, mid, claims, rest, ts, limit);
      }
    }
  }

  lemma StillDue(cfg: Settings, before: map<Key, Row>, mid: map<Key, Row>, claims: seq<Claim>, due: seq<Key>,
                 i: nat, ts: int)
    requires IsDueList(cfg, before, ts, due) && i < |due|
    requires ClaimedFrom(cfg, before, mid, claims, ts) && Keys(claims) == due[..i]
    ensures due[i] in mid && Claimable(cfg, mid[due[i]])
    ensures due[..i] + [due[i]] == due[..i + 1]
  {
    assert due[i] in due && due[i] !in due[..i];
  }

  /** On a fresh answer of the due query, with nobody interfering, it claims exactly the oldest due
      emails, as many as the limit allows. */
  lemma {:induction false} DueListIsClaimedInOrder(cfg: Settings, before: map<Key, Row>, mid: map<Key, Row>,
                                                   claims: seq<Claim>, due: seq<Key>, i: nat, ts: int, limit: Option<nat>)
    requires IsDueList(cfg, before, ts, due) && i <= |due| && (limit.Some? ==> i <= limit.value)
    requires ClaimedFrom(cfg, before, mid, claims, ts) && Keys(claims) == due[..i]
    ensures Keys(ClaimLoop(cfg, mid, claims, due[i..], ts, limit).1) == due[..Capped(limit, |due|)]
    decreases |due| - i
  {
    if i < |due| && !(limit.Some? && i >= limit.value) {
      var k := due[i];
      StillDue(cfg, before, mid, claims, due, i, ts);
      ClaimOneMore(cfg, before, mid, claims, k, ts);
      assert due[i..][1..] == due[i + 1..];
      DueListIsClaimedInOrder(cfg, before, mid[k := ClaimRow(mid[k], ts)],
                              claims + [Claim(k, mid[k].attempts + 1, mid[k].scheduledAt)], due, i + 1, ts, limit);
    }
  }

  function Capped(limit: Option<nat>, n: nat): nat {
    if limit.Some? && limit.value < n then limit.value else n
  }

  /** An answer of the due query: exactly the due rows, each once, oldest schedule first. */
  ghost predicate IsDueList(cfg: Settings, rows: map<Key, Row>, ts: int, due: seq<Key>) {
    && Distinct(due)
    && (forall k :: k in due <==> k in rows && Due(cfg, rows[k], ts))
    && (forall i, j | 0 <= i < j < |due| :: due[i] in rows && due[j] in rows &&
          rows[due[i]].scheduledAt <= rows[due[j]].scheduledAt)
  }

  predicate Distinct(keys: seq<Key>) {
    forall i, j :: 0 <= i < j < |keys| ==> keys[i] != keys[j]
  }

  // ---------------------------------------------------------------------------------------
  // Any number of workers, in any order
  // ---------------------------------------------------------------------------------------

  /** One statement the database executes. `Completed` and `FailedSend` carry whatever claim the
      worker believes it holds, however old. The two UPDATEs of the reaper are separate events. */
  datatype Event =
    | Enqueued(key: Key, mail: Mail, at: int)
    | Claimed(key: Key, ts: int)
    | Completed(claim: Claim, ts: int)
    | FailedSend(claim: Claim, error: string, ts: int)
    | ReapedExhausted(ts: int)
    | ReapedRetryable(ts: int)

  function StepRows(cfg: Settings, rows: map<Key, Row>, e: Event): map<Key, Row> {
    match e
    case Enqueued(k, mail, at) =>
      if k in rows then rows else rows[k := FreshRow(mail, at)]
    case Claimed(k, ts) =>
      if k in rows && Claimable(cfg, rows[k]) then rows[k := ClaimRow(rows[k], ts)] else rows
    case Completed(c, ts) =>
      if c.key in rows && Owns(rows[c.key], c.attempts)
      then rows[c.key := CompleteRow(rows[c.key], ts)] else rows
    case FailedSend(c, error, ts) =>
      if c.key in rows && Owns(rows[c.key], c.attempts)
      then rows[c.key := FailRow(cfg, rows[c.key], c, error, ts)] else rows
    case ReapedExhausted(ts) => map k | k in rows :: ReapExhaustedRow(cfg, rows[k], ts)
    case ReapedRetryable(ts) => map k | k in rows :: ReapRetryableRow(cfg, rows[k], ts)
  }

  function RunRows(cfg: Settings, rows: map<Key, Row>, events: seq<Event>): map<Key, Row>
    decreases |events|
  {
    if events == [] then rows else RunRows(cfg, StepRows(cfg, rows, events[0]), events[1..])
  }

  /** What holds of every row at every moment. */
  predicate RowInv(cfg: Settings, r: Row) {
    match r.state
    case Pending => r.attempts < cfg.cap
    case Sending => 1 <= r.attempts <= cfg.cap && r.startedAt.Some?
    case Sent => 1 <= r.attempts <= cfg.cap && r.sentAt.Some?
    case Failed => r.attempts == cfg.cap
  }

  ghost predicate Inv(cfg: Settings, rows: map<Key, Row>) {
    forall k :: k in rows ==> RowInv(cfg, rows[k])
  }

  lemma {:induction false} RunKeepsInv(cfg: Settings, rows: map<Key, Row>, events: seq<Event>)
    requires cfg.cap >= 1 && Inv(cfg, rows)
    ensures Inv(cfg, RunRows(cfg, rows, events))
    decreases |events|
  {
    if events != [] {
      RunKeepsInv(cfg, StepRows(cfg, rows, events[0]), events[1..]);
    }
  }

  /** Event `i` is the claim that won the row's token `attempts`. */
  ghost predicate WonBy(cfg: Settings, rows: map<Key, Row>, events: seq<Event>, k: Key, attempts: nat, i: int) {
    && 0 <= i < |events| && events[i].Claimed? && events[i].key == k
    && var mid := RunRows(cfg, rows, events[..i]);
       k in mid && mid[k].state == Pending && mid[k].attempts < cfg.cap && mid[k].attempts + 1 == attempts
  }

  lemma {:induction false} RunSnoc(cfg: Settings, rows: map<Key, Row>, events: seq<Event>, e: Event)
    ensures RunRows(cfg, rows, events + [e]) == StepRows(cfg, RunRows(cfg, rows, events), e)
    decreases |events|
  {
    if events == [] {
      assert [e][1..] == [] && [] + [e] == [e];
    } else {
      assert (events + [e])[1..] == events[1..] + [e];
      RunSnoc(cfg, StepRows(cfg, rows, events[0]), events[1..], e);
    }
  }

  /** A row that is sending carries the time stamp of the very claim that won its present token. */
  lemma {:induction false} StampIsTheClaims(cfg: Settings, events: seq<Event>, k: Key)
    requires k in RunRows(cfg, map[], events) && RunRows(cfg, map[], events)[k].state == Sending
    ensures var r := RunRows(cfg, map[], events)[k];
            exists i :: WonBy(cfg, map[], events, k, r.attempts, i) && r.startedAt == Some(events[i].ts)
    decreases |events|
  {
    var n := |events| - 1;
    var init, last := events[..n], events[n];
    assert events == init + [last];
    RunSnoc(cfg, map[], init, last);
    var mid, now := RunRows(cfg, map[], init), RunRows(cfg, map[], events);
    if k in mid && mid[k].state == Sending {
      StampIsTheClaims(cfg, init, k);
      var i :| WonBy(cfg, map[], init, k, mid[k].attempts, i) && mid[k].startedAt == Some(init[i].ts);
      assert init[..i] == events[..i] && events[i] == init[i];
      StaysSending(cfg, mid, last, k);
      assert WonBy(cfg, map[], events, k, now[k].attempts, i);
    } else {
      StartsSending(cfg, mid, last, k);
      assert WonBy(cfg, map[], events, k, now[k].attempts, n);
    }
  }

  /** No event renews the stamp or the token of a row that goes on sending. */
  lemma StaysSending(cfg: Settings, rows: map<Key, Row>, e: Event, k: Key)
    requires k in rows && rows[k].state == Sending
    requires k in StepRows(cfg, rows, e) && StepRows(cfg, rows, e)[k].state == Sending
    ensures StepRows(cfg, rows, e)[k] == rows[k]
  {
  }

  /** Only a claim makes a row sending. */
  lemma StartsSending(cfg: Settings, rows: map<Key, Row>, e: Event, k: Key)
    requires !(k in rows && rows[k].state == Sending)
    requires k in StepRows(cfg, rows, e) && StepRows(cfg, rows, e)[k].state == Sending
    ensures e.Claimed? && e.key == k && k in rows && rows[k].state == Pending && rows[k].attempts < cfg.cap
    ensures StepRows(cfg, rows, e)[k].attempts == rows[k].attempts + 1
    ensures StepRows(cfg, rows, e)[k].startedAt == Some(e.ts)
  {
  }

  /** No row is stranded: after any run from the empty table a pending row is below the cap, so it is
      due as soon as its time comes; a failed row has used the cap up; a sending row can be reaped
      once it is old enough. */
  lemma NothingIsStranded(cfg: Settings, events: seq<Event>, k: Key, ts: int)
    requires cfg.cap >= 1 && k in RunRows(cfg, map[], events)
    ensures var r := RunRows(cfg, map[], events)[k];
            && RowInv(cfg, r)
            && (r.state == Pending ==> (Due(cfg, r, ts) <==> r.scheduledAt <= ts))
            && (r.state == Sending ==> (Stale(cfg, r, ts) <==> r.startedAt.value + cfg.stale < ts))
  {
    RunKeepsInv(cfg, map[], events);
  }

  /** `Sent` and `Failed` are absorbing, and rows are never dropped: the row is bit for bit the same
      after any further events. */
  lemma {:induction false} TerminalIsAbsorbing(cfg: Settings, rows: map<Key, Row>, events: seq<Event>, k: Key)
    requires k in rows && (rows[k].state == Sent || rows[k].state == Failed)
    ensures k in RunRows(cfg, rows, events) && RunRows(cfg, rows, events)[k] == rows[k]
    decreases |events|
  {
    if events != [] {
      TerminalIsAbsorbing(cfg, StepRows(cfg, rows, events[0]), events[1..], k);
    }
  }

  // ---------------------------------------------------------------------------------------
  // The fencing token
  // ---------------------------------------------------------------------------------------

  /** The claim with this token is over: the row moved on, or left `Sending`. */
  predicate Over(rows: map<Key, Row>, k: Key, attempts: nat) {
    k in rows && (rows[k].attempts > attempts || (rows[k].attempts == attempts && rows[k].state != Sending))
  }

  /** Once a claim is over it stays over, whatever else happens: so the completion or failure a slow
      worker reports for it, at any later time, changes nothing. */
  lemma {:induction false} StaleWorkerIsHarmless(cfg: Settings, rows: map<Key, Row>, events: seq<Event>,
                                                 c: Claim, error: string, ts: int)
    requires Over(rows, c.key, c.attempts)
    ensures Over(RunRows(cfg, rows, events), c.key, c.attempts)
    ensures var late := RunRows(cfg, rows, events);
            && StepRows(cfg, late, Completed(c, ts)) == late
            && StepRows(cfg, late, FailedSend(c, error, ts)) == late
    decreases |events|
  {
    if events != [] {
      StaleWorkerIsHarmless(cfg, StepRows(cfg, rows, events[0]), events[1..], c, error, ts);
    }
  }

  /** The tokens won for one row during a run, in order. */
  function TokensWon(cfg: Settings, rows: map<Key, Row>, events: seq<Event>, k: Key): (won: seq<nat>)
    decreases |events|
  {
    if events == [] then []
    else
      var rest := TokensWon(cfg, StepRows(cfg, rows, events[0]), events[1..], k);
      if events[0].Claimed? && events[0].key == k && k in rows && Claimable(cfg, rows[k])
      then [rows[k].attempts + 1] + rest else rest
  }

  function AttemptsOf(rows: map<Key, Row>, k: Key): nat {
    if k in rows then rows[k].attempts else 0
  }

  /** The tokens won are exactly the numbers between the attempts before and after, each once, in
      order: no `(row, attempts)` pair is ever handed to two workers. */
  lemma {:induction false} EachTokenIsWonOnce(cfg: Settings, rows: map<Key, Row>, events: seq<Event>, k: Key)
    ensures var won := TokensWon(cfg, rows, events, k);
            && |won| == AttemptsOf(RunRows(cfg, rows, events), k) - AttemptsOf(rows, k)
            && forall i :: 0 <= i < |won| ==> won[i] == AttemptsOf(rows, k) + 1 + i
    decreases |events|
  {
    if events != [] {
      EachTokenIsWonOnce(cfg, StepRows(cfg, rows, events[0]), events[1..], k);
    }
  }

  // ---------------------------------------------------------------------------------------
  // Bounded work
  // ---------------------------------------------------------------------------------------

  /** How much can still happen to a row. */
  function Fuel(cfg: Settings, r: Row): nat {
    match r.state
    case Pending => if r.attempts < cfg.cap then 2 * (cfg.cap - r.attempts) else 0
    case Sending => if r.attempts < cfg.cap then 2 * (cfg.cap - r.attempts) + 1 else 1
    case _ => 0
  }

  /** The number of events of a run that change the row. */
  function Changes(cfg: Settings, rows: map<Key, Row>, events: seq<Event>, k: Key): nat
    decreases |events|
  {
    if events == [] then 0
    else
      var rows' := StepRows(cfg, rows, events[0]);
      (if k in rows && k in rows' && rows'[k] != rows[k] then 1 else 0) + Changes(cfg, rows', events[1..], k)
  }

  /** Every effective event burns fuel, and none creates any. */
  lemma StepBurnsFuel(cfg: Settings, rows: map<Key, Row>, e: Event, k: Key)
    requires Inv(cfg, rows) && k in rows
    ensures k in StepRows(cfg, rows, e)
    ensures StepRows(cfg, rows, e)[k] != rows[k] ==>
              Fuel(cfg, StepRows(cfg, rows, e)[k]) < Fuel(cfg, rows[k])
  {
  }

  lemma {:induction false} RunBurnsFuel(cfg: Settings, rows: map<Key, Row>, events: seq<Event>, k: Key)
    requires cfg.cap >= 1 && Inv(cfg, rows) && k in rows
    ensures k in RunRows(cfg, rows, events)
    ensures Changes(cfg, rows, events, k) + Fuel(cfg, RunRows(cfg, rows, events)[k]) <= Fuel(cfg, rows[k])
    decreases |events|
  {
    if events != [] {
      var rows' := StepRows(cfg, rows, events[0]);
      StepBurnsFuel(cfg, rows, events[0], k);
      RunKeepsInv(cfg, rows, [events[0]]);
      assert RunRows(cfg, rows, [events[0]]) == rows';
      RunBurnsFuel(cfg, rows', events[1..], k);
    }
  }

  /** A freshly queued email changes at most twice per allowed attempt and is claimed for sending at
      most `cap` times, in any run whatsoever. */
  lemma WorkIsBounded(cfg: Settings, rows: map<Key, Row>, events: seq<Event>, k: Key, mail: Mail, at: int)
    requires cfg.cap >= 1 && Inv(cfg, rows) && k !in rows
    ensures var queued := StepRows(cfg, rows, Enqueued(k, mail, at));
            && Changes(cfg, queued, events, k) <= 2 * cfg.cap
            && |TokensWon(cfg, queued, events, k)| <= cfg.cap
  {
    var queued := StepRows(cfg, rows, Enqueued(k, mail, at));
    RunBurnsFuel(cfg, queued, events, k);
    EachTokenIsWonOnce(cfg, queued, events, k);
    RunKeepsInv(cfg, queued, events);
  }

  /** The cap of at least one is needed: with a cap of zero a queued email waits for ever. */
  lemma {:induction false} ZeroCapStrands(cfg: Settings, k: Key, mail: Mail, at: int, events: seq<Event>)
    requires cfg.cap == 0
    ensures var queued := StepRows(cfg, map[], Enqueued(k, mail, at));
            k in RunRows(cfg, queued, events) && RunRows(cfg, queued, events)[k] == queued[k]
  {
    ZeroCapRun(cfg, StepRows(cfg, map[], Enqueued(k, mail, at)), events, k);
  }

  lemma {:induction false} ZeroCapRun(cfg: Settings, rows: map<Key, Row>, events: seq<Event>, k: Key)
    requires cfg.cap == 0 && k in rows && rows[k].state == Pending
    ensures k in RunRows(cfg, rows, events) && RunRows(cfg, rows, events)[k] == rows[k]
    decreases |events|
  {
    if events != [] {
      ZeroCapRun(cfg, StepRows(cfg, rows, events[0]), events[1..], k);
    }
  }

  /** A failed send below the cap keeps its token spent and comes due again exactly `retry` seconds
      later. Only the due query waits for that: a worker whose candidate list is older than the
      failure can claim the row at once. */
  lemma BackoffBindsOnlyTheDueQuery(cfg: Settings, rows: map<Key, Row>, c: Claim, error: string, ts: int, now: int)
    requires c.key in rows && Owns(rows[c.key], c.attempts) && c.attempts < cfg.cap
    ensures var after := StepRows(cfg, rows, FailedSend(c, error, ts));
            && Over(after, c.key, c.attempts)
            && after[c.key].error == error
            && (Due(cfg, after[c.key], now) <==> ts + cfg.retry <= now)
            && StepRows(cfg, after, Claimed(c.key, now))[c.key].state == Sending
            && TokensWon(cfg, after, [Claimed(c.key, now)], c.key) == [c.attempts + 1]
  {
    var after := StepRows(cfg, rows, FailedSend(c, error, ts));
    assert TokensWon(cfg, StepRows(cfg, after, Claimed(c.key, now)), [], c.key) == [];
  }
}
