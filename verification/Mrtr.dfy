/**
 The one-shot approval store (src/mcp/mrtr.rs). A random token stands for one pending approval; an
 echo consumes it and is checked against every binding. Tokens are assumed fresh, the clock monotone.
*/
module Mrtr {
  import opened Wrappers
  import opened SqlText

  type Token = nat

  const MAX_PENDING: nat := 32
  const MAX_TOMBSTONES: nat := 256

  datatype Approval = Approval(tool: string, connection: string, digest: string, revision: nat,
                               ddlTargets: Option<seq<TableId>>, expiresAt: nat)

  /** An echo: the decoded token (none if malformed) and the bindings of the retried call. */
  datatype Echo = Echo(token: Option<Token>, tool: string, connection: string, digest: string, revision: nat)

  datatype Reason = Malformed | NothingPending | Unknown | OtherTool | OtherConnection | OperationChanged

  datatype Result =
    | Approved(approval: Approval)
    | InvalidState(reason: Reason)
    | Expired
    | PolicyChanged
    | AlreadyConsumed

  type Pending = seq<(Token, Approval)>

  datatype Store = Store(pending: Pending, tombstones: seq<Token>)

  function LastN<T>(s: seq<T>, n: nat): seq<T> {
    if |s| > n then s[|s| - n..] else s
  }

  function Lookup(pending: Pending, t: Token): Option<Approval> {
    if pending == [] then None
    else if pending[0].0 == t then Some(pending[0].1)
    else Lookup(pending[1..], t)
  }

  /** Without the first entry for `t`. */
  function Remove(pending: Pending, t: Token): Pending {
    if pending == [] then []
    else if pending[0].0 == t then pending[1..]
    else [pending[0]] + Remove(pending[1..], t)
  }

  function Unexpired(pending: Pending, now: nat): Pending {
    if pending == [] then []
    else (if pending[0].1.expiresAt > now then [pending[0]] else []) + Unexpired(pending[1..], now)
  }

  /** The checks on a consumed approval, in their order. */
  function Validate(p: Approval, e: Echo, now: nat): Result {
    if p.expiresAt <= now then Expired
    else if p.tool != e.tool then InvalidState(OtherTool)
    else if p.connection != e.connection then InvalidState(OtherConnection)
    else if p.revision != e.revision then PolicyChanged
    else if p.digest != e.digest then InvalidState(OperationChanged)
    else Approved(p)
  }

  function Issued(s: Option<Store>, t: Token, p: Approval): Store {
    var store := s.GetOr(Store([], []));
    store.(pending := LastN(store.pending + [(t, p)], MAX_PENDING))
  }

  function Taken(s: Option<Store>, e: Echo, now: nat): (Option<Store>, Result) {
    if e.token.None? then (s, InvalidState(Malformed))
    else if s.None? then (s, InvalidState(NothingPending))
    else
      var t := e.token.value;
      match Lookup(s.value.pending, t)
      case None =>
        (Some(s.value.(pending := Unexpired(s.value.pending, now))),
         if t in s.value.tombstones then AlreadyConsumed else InvalidState(Unknown))
      case Some(p) =>
        (Some(Store(Remove(s.value.pending, t), LastN(s.value.tombstones + [t], MAX_TOMBSTONES))),
         Validate(p, e, now))
  }

  /** The process-wide store behind its mutex; each method is one lock section. */
  class PendingStore {
    var store: Option<Store>

    constructor ()
      ensures store == None
    {
      store := None;
    }

    method Issue(t: Token, p: Approval)
      modifies this
      ensures store == Some(Issued(old(store), t, p))
    {
      var s := store.GetOr(Store([], []));
      var pending := s.pending + [(t, p)];
      ghost var all := pending;
      while |pending| > MAX_PENDING
        invariant |all| >= |pending|
        invariant |pending| >= MAX_PENDING || pending == all
        invariant pending == all[|all| - |pending|..]
      {
        pending := pending[1..];
      }
      store := Some(Store(pending, s.tombstones));
    }

    method Take(e: Echo, now: nat) returns (r: Result)
      modifies this
      ensures (store, r) == Taken(old(store), e, now)
    {
      if e.token.None? {
        return InvalidState(Malformed);
      }
      if store.None? {
        return InvalidState(NothingPending);
      }
      var t, s := e.token.value, store.value;
      var p := Lookup(s.pending, t);
      if p.None? {
        store := Some(s.(pending := Unexpired(s.pending, now)));
        return if t in s.tombstones then AlreadyConsumed else InvalidState(Unknown);
      }
      var tombstones := s.tombstones + [t];
      ghost var all := tombstones;
      while |tombstones| > MAX_TOMBSTONES
        invariant |all| >= |tombstones|
        invariant |tombstones| >= MAX_TOMBSTONES || tombstones == all
        invariant tombstones == all[|all| - |tombstones|..]
      {
        tombstones := tombstones[1..];
      }
      store := Some(Store(Remove(s.pending, t), tombstones));
      if p.value.expiresAt <= now { return Expired; }
      if p.value.tool != e.tool { return InvalidState(OtherTool); }
      if p.value.connection != e.connection { return InvalidState(OtherConnection); }
      if p.value.revision != e.revision { return PolicyChanged; }
      if p.value.digest != e.digest { return InvalidState(OperationChanged); }
      return Approved(p.value);
    }
  }

  // ----- Histories -----

  datatype Event = Issue(token: Token, approval: Approval) | Take(echo: Echo, now: nat)

  /** The store after a history. */
  function After(events: seq<Event>): Option<Store> {
    if events == [] then None else
      var before, e := After(events[..|events| - 1]), events[|events| - 1];
      match e
      case Issue(t, p) => Some(Issued(before, t, p))
      case Take(echo, now) => Taken(before, echo, now).0
  }

  function PendingAfter(events: seq<Event>): Pending {
    After(events).GetOr(Store([], [])).pending
  }

  /** The answer to the echo at position `i`. */
  function Answer(events: seq<Event>, i: nat): Result
    requires i < |events| && events[i].Take?
  {
    Taken(After(events[..i]), events[i].echo, events[i].now).1
  }

  /** The echo at position `i` names a pending token. */
  predicate Hits(events: seq<Event>, i: nat)
    requires i < |events|
  {
    && events[i].Take? && events[i].echo.token.Some?
    && Lookup(PendingAfter(events[..i]), events[i].echo.token.value).Some?
  }

  /** The tokens consumed so far, in order. */
  function Consumed(events: seq<Event>): seq<Token> {
    if events == [] then [] else
      var n := |events| - 1;
      Consumed(events[..n]) + if Hits(events, n) then [events[n].echo.token.value] else []
  }

  ghost predicate FreshTokens(events: seq<Event>) {
    forall i, j :: 0 <= i < j < |events| && events[i].Issue? && events[j].Issue? ==> events[i].token != events[j].token
  }

  ghost predicate ClockMonotone(events: seq<Event>) {
    forall i, j :: 0 <= i < j < |events| && events[i].Take? && events[j].Take? ==> events[i].now <= events[j].now
  }

  // ----- The pending queue -----

  predicate Distinct(pending: Pending) {
    pending == [] || (Lookup(pending[1..], pending[0].0).None? && Distinct(pending[1..]))
  }

  /** How many entries are younger than the one for `t`. */
  function Behind(pending: Pending, t: Token): nat {
    if pending == [] then 0
    else if pending[0].0 == t then |pending| - 1
    else Behind(pending[1..], t)
  }

  lemma {:induction false} Appending(pending: Pending, t: Token, p: Approval, u: Token)
    requires Distinct(pending) && Lookup(pending, t).None?
    ensures Distinct(pending + [(t, p)])
    ensures Lookup(pending + [(t, p)], u) == if u == t then Some(p) else Lookup(pending, u)
    ensures Lookup(pending, u).Some? ==> Behind(pending + [(t, p)], u) == Behind(pending, u) + 1
    decreases |pending|
  {
    var more := pending + [(t, p)];
    if pending != [] {
      assert more[1..] == pending[1..] + [(t, p)];
      Appending(pending[1..], t, p, u);
      Appending(pending[1..], t, p, pending[0].0);
    }
  }

  /** Dropping the oldest entries loses exactly those with too many younger ones. */
  lemma {:induction false} KeepingLast(pending: Pending, n: nat, u: Token)
    requires Distinct(pending)
    ensures Distinct(LastN(pending, n))
    ensures Lookup(LastN(pending, n), u) ==
            if Lookup(pending, u).Some? && Behind(pending, u) < n then Lookup(pending, u) else None
    ensures Lookup(LastN(pending, n), u).Some? ==> Behind(LastN(pending, n), u) == Behind(pending, u)
    decreases |pending|
  {
    BehindBound(pending, u);
    if |pending| > n {
      assert LastN(pending, n) == LastN(pending[1..], n);
      KeepingLast(pending[1..], n, u);
    }
  }

  lemma BehindBound(pending: Pending, u: Token)
    ensures pending == [] || Behind(pending, u) < |pending|
    decreases |pending|
  {
    if pending != [] {
      BehindBound(pending[1..], u);
    }
  }

  lemma {:induction false} Removing(pending: Pending, t: Token, u: Token)
    requires Distinct(pending) && Lookup(pending, t).Some?
    ensures Distinct(Remove(pending, t)) && |Remove(pending, t)| == |pending| - 1
    ensures Lookup(Remove(pending, t), u) == if u == t then None else Lookup(pending, u)
    ensures u != t && Lookup(pending, u).Some? ==> Behind(Remove(pending, t), u) <= Behind(pending, u)
    decreases |pending|
  {
    if pending[0].0 != t {
      var less := Remove(pending, t);
      assert less[1..] == Remove(pending[1..], t);
      Removing(pending[1..], t, u);
      Removing(pending[1..], t, pending[0].0);
    }
  }

  lemma {:induction false} Reaping(pending: Pending, now: nat, u: Token)
    requires Distinct(pending)
    ensures Distinct(Unexpired(pending, now)) && |Unexpired(pending, now)| <= |pending|
    ensures Lookup(Unexpired(pending, now), u) ==
            if Lookup(pending, u).Some? && Lookup(pending, u).value.expiresAt > now then Lookup(pending, u) else None
    ensures Lookup(Unexpired(pending, now), u).Some? ==> Behind(Unexpired(pending, now), u) <= Behind(pending, u)
    decreases |pending|
  {
    if pending != [] {
      Reaping(pending[1..], now, u);
      Reaping(pending[1..], now, pending[0].0);
      var kept := Unexpired(pending[1..], now);
      assert Unexpired(pending, now) == if pending[0].1.expiresAt > now then [pending[0]] + kept else kept;
      assert pending[0].1.expiresAt > now ==> ([pending[0]] + kept)[1..] == kept;
    }
  }

  // ----- What every history keeps -----

  ghost predicate Inv(events: seq<Event>) {
    var pending := PendingAfter(events);
    && Distinct(pending)
    && (forall t :: Lookup(pending, t).Some? ==> Issue(t, Lookup(pending, t).value) in events)
    && (forall t :: t in Consumed(events) ==> Lookup(pending, t).None? && exists p :: Issue(t, p) in events)
    && After(events).GetOr(Store([], [])).tombstones == LastN(Consumed(events), MAX_TOMBSTONES)
  }

  lemma NotIssuedBefore(events: seq<Event>, i: nat, t: Token, p: Approval, q: Approval)
    requires FreshTokens(events) && i < |events| && events[i] == Issue(t, p)
    ensures Issue(t, q) !in events[..i]
  {
    assert forall k :: 0 <= k < i ==> events[..i][k] == events[k];
  }

  lemma IssueKeepsInv(events: seq<Event>, t: Token, p: Approval)
    requires events != [] && events[|events| - 1] == Issue(t, p) && FreshTokens(events)
    requires Inv(events[..|events| - 1])
    ensures Inv(events)
  {
    var n := |events| - 1;
    var before, pending := events[..n], PendingAfter(events[..n]);
    forall q ensures Issue(t, q) !in before { NotIssuedBefore(events, n, t, p, q); }
    assert Lookup(pending, t).None?;
    forall u ensures Distinct(PendingAfter(events))
             ensures Lookup(PendingAfter(events), u).Some? ==>
                       Lookup(PendingAfter(events), u) == if u == t then Some(p) else Lookup(pending, u)
    {
      Appending(pending, t, p, u);
      KeepingLast(pending + [(t, p)], MAX_PENDING, u);
    }
    assert forall e :: e in before ==> e in events;
    assert Consumed(events) == Consumed(before);
  }

  lemma TakeKeepsInv(events: seq<Event>, e: Echo, now: nat)
    requires events != [] && events[|events| - 1] == Take(e, now)
    requires Inv(events[..|events| - 1])
    ensures Inv(events)
  {
    var n := |events| - 1;
    var before, pending := events[..n], PendingAfter(events[..n]);
    assert forall e :: e in before ==> e in events;
    if e.token.Some? && Lookup(pending, e.token.value).Some? {
      var t := e.token.value;
      forall u ensures Distinct(PendingAfter(events))
               ensures Lookup(PendingAfter(events), u) == if u == t then None else Lookup(pending, u)
      {
        Removing(pending, t, u);
      }
      assert Consumed(events) == Consumed(before) + [t];
      assert Issue(t, Lookup(pending, t).value) in events;
      LastNMore(Consumed(before), t, MAX_TOMBSTONES);
    } else {
      forall u ensures Distinct(PendingAfter(events))
               ensures Lookup(PendingAfter(events), u).Some? ==> Lookup(PendingAfter(events), u) == Lookup(pending, u)
      {
        Reaping(pending, now, u);
      }
      assert Consumed(events) == Consumed(before);
    }
  }

  lemma LastNMore<T>(s: seq<T>, x: T, n: nat)
    ensures LastN(LastN(s, n) + [x], n) == LastN(s + [x], n)
  {
  }

  lemma {:induction false} InvHolds(events: seq<Event>)
    requires FreshTokens(events)
    ensures Inv(events)
    decreases |events|
  {
    hide Inv;
    if events == [] {
      NothingYet();
    } else {
      InvHolds(events[..|events| - 1]);
      match events[|events| - 1] {
        case Issue(t, p) => IssueKeepsInv(events, t, p);
        case Take(e, now) => TakeKeepsInv(events, e, now);
      }
    }
  }

  lemma NothingYet()
    ensures Inv([])
  {
  }

  lemma PrefixesAreFresh(events: seq<Event>, i: nat)
    requires FreshTokens(events) && i <= |events|
    ensures FreshTokens(events[..i])
  {
  }

  lemma {:induction false} ConsumedGrows(events: seq<Event>, i: nat, j: nat)
    requires i <= j <= |events|
    ensures Consumed(events[..i]) <= Consumed(events[..j])
    decreases j
  {
    if i < j {
      assert events[..j][..j - 1] == events[..j - 1];
      ConsumedGrows(events, i, j - 1);
    }
  }

  /** An echo that finds its token consumes it: the token is in the history ever after. */
  lemma HitIsConsumed(events: seq<Event>, i: nat, j: nat)
    requires i < j <= |events| && Hits(events, i)
    ensures events[i].echo.token.value in Consumed(events[..j])
  {
    assert events[..i + 1][..i] == events[..i];
    assert Hits(events[..i + 1], i);
    ConsumedGrows(events, i + 1, j);
    assert events[i].echo.token.value in Consumed(events[..i + 1]);
  }

  // ----- The promises -----

  /** The tombstones are exactly the last 256 consumed tokens, in order of consumption, and never more
      than 32 approvals are pending. */
  lemma {:induction false} TombstonesAreTheLast256(events: seq<Event>)
    requires FreshTokens(events)
    ensures After(events).GetOr(Store([], [])).tombstones == LastN(Consumed(events), 256)
    ensures |PendingAfter(events)| <= 32
  {
    InvHolds(events);
    PendingIsBounded(events);
  }

  lemma {:induction false} PendingIsBounded(events: seq<Event>)
    requires FreshTokens(events)
    ensures |PendingAfter(events)| <= MAX_PENDING
    decreases |events|
  {
    if events != [] {
      var before := events[..|events| - 1];
      PrefixesAreFresh(events, |events| - 1);
      PendingIsBounded(before);
      InvHolds(before);
      var pending := PendingAfter(before);
      match events[|events| - 1] {
        case Issue(t, p) =>
        case Take(e, now) =>
          if e.token.Some? && Lookup(pending, e.token.value).Some? {
            Removing(pending, e.token.value, e.token.value);
          } else {
            Reaping(pending, now, 0);
          }
      }
    }
  }

  /** One echo, one attempt: once an echo has found its token, whatever came of it, every later echo of
      that token is answered `already consumed` while the token is among the last 256 consumed ones
      and `unknown` afterwards. */
  lemma ReplayIsRefused(events: seq<Event>, i: nat, j: nat)
    requires FreshTokens(events) && i < j < |events| && Hits(events, i)
    requires events[j].Take? && events[j].echo.token == events[i].echo.token
    ensures Answer(events, j) ==
            if events[j].echo.token.value in LastN(Consumed(events[..j]), MAX_TOMBSTONES) then AlreadyConsumed
            else InvalidState(Unknown)
  {
    HitIsConsumed(events, i, j);
    PrefixesAreFresh(events, j);
    InvHolds(events[..j]);
    StoreExistsOnceIssued(events[..j]);
  }

  lemma StoreExistsOnceIssued(events: seq<Event>)
    ensures After(events).None? ==> forall t, p :: Issue(t, p) !in events
    decreases |events|
  {
    if events != [] {
      StoreExistsOnceIssued(events[..|events| - 1]);
      assert events == events[..|events| - 1] + [events[|events| - 1]];
    }
  }

  /** Each token succeeds at most once. */
  lemma SucceedsAtMostOnce(events: seq<Event>, i: nat, j: nat)
    requires FreshTokens(events) && i < j < |events| && events[i].Take? && events[j].Take?
    requires events[j].echo.token == events[i].echo.token
    ensures !(Answer(events, i).Approved? && Answer(events, j).Approved?)
  {
    if Answer(events, i).Approved? {
      assert Hits(events, i);
      ReplayIsRefused(events, i, j);
    }
  }

  /** Success means the token was issued, for the same tool, connection, policy revision and operation,
      and has not expired; what is returned is the approval as issued. */
  lemma SuccessIsBound(events: seq<Event>, i: nat)
    requires FreshTokens(events) && i < |events| && events[i].Take? && Answer(events, i).Approved?
    ensures var p, e := Answer(events, i).approval, events[i].echo;
            && e.token.Some? && Issue(e.token.value, p) in events[..i]
            && p.tool == e.tool && p.connection == e.connection && p.revision == e.revision && p.digest == e.digest
            && events[i].now < p.expiresAt
  {
    PrefixesAreFresh(events, i);
    InvHolds(events[..i]);
  }

  function Issues(events: seq<Event>): nat {
    if events == [] then 0
    else Issues(events[..|events| - 1]) + if events[|events| - 1].Issue? then 1 else 0
  }

  /** From its issue on, an approval stays pending with no more younger entries than later issues. */
  lemma {:induction false} StaysPending(events: seq<Event>, k: nat, i: nat, t: Token, p: Approval)
    requires FreshTokens(events) && k < i <= |events| && events[k] == Issue(t, p)
    requires forall m :: k < m < i && events[m].Take? ==> events[m].echo.token != Some(t) && events[m].now < p.expiresAt
    requires Issues(events[..i]) - Issues(events[..k + 1]) < MAX_PENDING
    ensures Lookup(PendingAfter(events[..i]), t) == Some(p)
    ensures Behind(PendingAfter(events[..i]), t) <= Issues(events[..i]) - Issues(events[..k + 1])
    decreases i
  {
    var n := i - 1;
    var pending := PendingAfter(events[..n]);
    assert events[..i][..n] == events[..n];
    PrefixesAreFresh(events, n);
    InvHolds(events[..n]);
    if n == k {
      forall q ensures Issue(t, q) !in events[..k] { NotIssuedBefore(events, k, t, p, q); }
      Appending(pending, t, p, t);
      JustAppended(pending, t, p);
      KeepingLast(pending + [(t, p)], MAX_PENDING, t);
    } else {
      StaysPending(events, k, n, t, p);
      match events[n] {
        case Issue(u, q) =>
          forall r ensures Issue(u, r) !in events[..n] { NotIssuedBefore(events, n, u, q, r); }
          assert events[k] == Issue(t, p) && events[k] in events[..n];
          Appending(pending, u, q, t);
          KeepingLast(pending + [(u, q)], MAX_PENDING, t);
        case Take(e, now) =>
          if e.token.Some? && Lookup(pending, e.token.value).Some? {
            Removing(pending, e.token.value, t);
          } else {
            Reaping(pending, now, t);
          }
      }
    }
  }

  lemma JustAppended(pending: Pending, t: Token, p: Approval)
    requires Lookup(pending, t).None?
    ensures Behind(pending + [(t, p)], t) == 0
    decreases |pending|
  {
    if pending != [] {
      assert (pending + [(t, p)])[1..] == pending[1..] + [(t, p)];
      JustAppended(pending[1..], t, p);
    }
  }

  /** A token that is not yet taken, not expired and followed by fewer than 32 issues is always found: the echo
      succeeds exactly when all its bindings are those of the approval, and otherwise the first binding that
      differs gives the answer, the policy revision before the operation. */
  lemma PendingTokenIsFound(events: seq<Event>, k: nat, i: nat, p: Approval)
    requires FreshTokens(events) && ClockMonotone(events)
    requires k < i < |events| && events[i].Take? && events[i].echo.token.Some?
    requires events[k] == Issue(events[i].echo.token.value, p) && events[i].now < p.expiresAt
    requires forall m :: k < m < i && events[m].Take? ==> events[m].echo.token != events[i].echo.token
    requires Issues(events[..i]) - Issues(events[..k + 1]) < MAX_PENDING
    ensures var e, r := events[i].echo, Answer(events, i);
            && (r == Approved(p) <==>
                  e.tool == p.tool && e.connection == p.connection && e.revision == p.revision && e.digest == p.digest)
            && (e.tool != p.tool ==> r == InvalidState(OtherTool))
            && (e.tool == p.tool && e.connection != p.connection ==> r == InvalidState(OtherConnection))
            && (e.tool == p.tool && e.connection == p.connection && e.revision != p.revision ==> r == PolicyChanged)
            && (e.tool == p.tool && e.connection == p.connection && e.revision == p.revision && e.digest != p.digest ==>
                  r == InvalidState(OperationChanged))
  {
    StaysPending(events, k, i, events[i].echo.token.value, p);
  }

  /** From its expiry on an approval never succeeds; if the echo comes while it is still stored, that is said. */
  lemma ExpiredNeverSucceeds(events: seq<Event>, i: nat, p: Approval)
    requires FreshTokens(events) && i < |events| && events[i].Take? && events[i].echo.token.Some?
    requires Issue(events[i].echo.token.value, p) in events[..i] && p.expiresAt <= events[i].now
    ensures !Answer(events, i).Approved?
    ensures Hits(events, i) ==> Answer(events, i) == Expired
  {
    var t := events[i].echo.token.value;
    PrefixesAreFresh(events, i);
    InvHolds(events[..i]);
    if Hits(events, i) {
      var q := Lookup(PendingAfter(events[..i]), t).value;
      OneIssue(events[..i], t, p, q);
    }
  }

  lemma OneIssue(events: seq<Event>, t: Token, p: Approval, q: Approval)
    requires FreshTokens(events) && Issue(t, p) in events && Issue(t, q) in events
    ensures p == q
  {
    var i :| 0 <= i < |events| && events[i] == Issue(t, p);
    var j :| 0 <= j < |events| && events[j] == Issue(t, q);
  }
}
