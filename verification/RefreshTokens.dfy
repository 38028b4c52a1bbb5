/** Refresh-token rotation: lookup, check, revoke and issue are separate statements on a shared
    table, so any number of rotations and logouts interleave between them. The conditional UPDATE
    of the revoke is what makes one of them win. */
module RefreshTokens {
  import opened Common

  type Id = nat

  datatype Row = Row(user: string, hash: string, expiresAt: int, revoked: bool)

  /** A row together with what the table does not record: the token it was issued in exchange
      for, and the login it goes back to. */
  datatype Token = Token(row: Row, parent: Option<Id>, root: Id)

  /** A request between two of its statements: it has read a row that passed its checks, or it has
      revoked a row and is about to issue the successor. */
  datatype Request =
    | Looked(id: Id, rotating: bool)
    | Rotating(id: Id)

  datatype System = System(tokens: map<Id, Token>, requests: map<nat, Request>)

  const INIT := System(map[], map[])

  datatype Step =
    | Login(id: Id, user: string, hash: string, expiresAt: int)
    | Lookup(request: nat, hash: string, found: Id, now: int, rotating: bool)
    | Revoke(request: nat)
    | Issue(request: nat, id: Id, hash: string, expiresAt: int)
    | Abandon(request: nat)

  predicate Usable(row: Row, now: int) {
    !row.revoked && now <= row.expiresAt
  }

  function Revoked(t: Token): Token {
    t.(row := t.row.(revoked := true))
  }

  function ApplyRevoke(s: System, r: nat): System {
    if r !in s.requests || s.requests[r].Rotating? || s.requests[r].id !in s.tokens then s
    else
      var id, rotating := s.requests[r].id, s.requests[r].rotating;
      if s.tokens[id].row.revoked then s.(requests := s.requests - {r})
      else System(s.tokens[id := Revoked(s.tokens[id])],
                  if rotating then s.requests[r := Rotating(id)] else s.requests - {r})
  }

  function ApplyIssue(s: System, r: nat, id: Id, hash: string, expiresAt: int): System {
    if r !in s.requests || !s.requests[r].Rotating? || s.requests[r].id !in s.tokens then s
    else
      var from := s.requests[r].id;
      var row := Row(s.tokens[from].row.user, hash, expiresAt, false);
      System(s.tokens[id := Token(row, Some(from), s.tokens[from].root)],
             s.requests - {r})
  }

  function Apply(s: System, step: Step): System {
    match step
    case Login(id, user, hash, expiresAt) =>
      s.(tokens := s.tokens[id := Token(Row(user, hash, expiresAt, false), None, id)])
    case Lookup(r, hash, found, now, rotating) =>
      if found in s.tokens && s.tokens[found].row.hash == hash && (rotating ==> Usable(s.tokens[found].row, now))
      then s.(requests := s.requests[r := Looked(found, rotating)])
      else s
    case Revoke(r) => ApplyRevoke(s, r)
    case Issue(r, id, hash, expiresAt) => ApplyIssue(s, r, id, hash, expiresAt)
    case Abandon(r) => s.(requests := s.requests - {r})
  }

  /** Issued tokens and their ids are fresh, and a request identifier is used for one request at a time. */
  ghost predicate Allowed(s: System, step: Step) {
    match step
    case Login(id, _, hash, _) => Fresh(s, id, hash)
    case Lookup(r, _, _, _, _) => r !in s.requests
    case Issue(_, id, hash, _) => Fresh(s, id, hash)
    case _ => true
  }

  ghost predicate Fresh(s: System, id: Id, hash: string) {
    id !in s.tokens && forall other :: other in s.tokens ==> s.tokens[other].row.hash != hash
  }

  function Run(steps: seq<Step>): System {
    if steps == [] then INIT else Apply(Run(Front(steps)), Last(steps))
  }

  ghost predicate Legal(steps: seq<Step>) {
    steps == [] || (Legal(Front(steps)) && Allowed(Run(Front(steps)), Last(steps)))
  }

  predicate IsChild(s: System, child: Id, parent: Id) {
    child in s.tokens && s.tokens[child].parent == Some(parent)
  }

  predicate IsRotating(s: System, r: nat, id: Id) {
    r in s.requests && s.requests[r] == Rotating(id)
  }

  predicate Live(s: System, id: Id, root: Id) {
    id in s.tokens && !s.tokens[id].row.revoked && s.tokens[id].root == root
  }

  /** A token's parent is revoked and of the same login, and a token belongs to the user who logged in. */
  ghost predicate TokenOk(s: System, id: Id) {
    id in s.tokens ==>
      && s.tokens[id].root in s.tokens
      && s.tokens[s.tokens[id].root].row.user == s.tokens[id].row.user
      && (s.tokens[id].parent.Some? ==>
            var p := s.tokens[id].parent.value;
            p in s.tokens && s.tokens[p].row.revoked && s.tokens[p].root == s.tokens[id].root)
  }

  /** A request refers to a token; once it is rotating, to a revoked one without successor. */
  ghost predicate RequestOk(s: System, r: nat) {
    r in s.requests ==>
      && s.requests[r].id in s.tokens
      && (s.requests[r].Rotating? ==> s.tokens[s.requests[r].id].row.revoked)
  }

  ghost predicate Structure(s: System) {
    (forall id :: TokenOk(s, id)) && (forall r :: RequestOk(s, r))
  }

  /** Each login has at most one thing that can still become a session: an unrevoked token, or a
      rotation that has revoked its token and not yet issued. */
  ghost predicate OneClaim(s: System) {
    && (forall a, b, root :: Live(s, a, root) && Live(s, b, root) ==> a == b)
    && (forall q, r, i, j :: IsRotating(s, q, i) && IsRotating(s, r, j) && SameLogin(s, i, j) ==> q == r)
    && (forall a, r, i :: IsRotating(s, r, i) && i in s.tokens ==> !Live(s, a, s.tokens[i].root))
  }

  predicate SameLogin(s: System, i: Id, j: Id) {
    i in s.tokens && j in s.tokens && s.tokens[i].root == s.tokens[j].root
  }

  ghost predicate OneChild(s: System) {
    && (forall a, b, p :: IsChild(s, a, p) && IsChild(s, b, p) ==> a == b)
    && (forall a, r, p :: IsRotating(s, r, p) ==> !IsChild(s, a, p))
  }

  ghost predicate HashesUnique(s: System) {
    forall a, b :: a in s.tokens && b in s.tokens && s.tokens[a].row.hash == s.tokens[b].row.hash ==> a == b
  }

  ghost predicate Inv(s: System) {
    Structure(s) && OneClaim(s) && OneChild(s) && HashesUnique(s)
  }

  lemma {:induction false} LoginKeeps(s: System, id: Id, user: string, hash: string, expiresAt: int)
    requires Inv(s) && Fresh(s, id, hash)
    ensures Inv(Apply(s, Login(id, user, hash, expiresAt)))
  {
    var s' := Apply(s, Login(id, user, hash, expiresAt));
    forall x ensures TokenOk(s', x) { assert TokenOk(s, x); }
    forall r ensures RequestOk(s', r) { assert RequestOk(s, r); }
    forall x, root | Live(s', x, root)
      ensures if x == id then root == id else Live(s, x, root) && root != id
    {
      assert TokenOk(s, x);
    }
    forall r, i | IsRotating(s', r, i)
      ensures IsRotating(s, r, i) && i in s.tokens && s.tokens[i].root != id
    {
      assert RequestOk(s, r) && TokenOk(s, i);
    }
    forall x, p | IsChild(s', x, p) ensures IsChild(s, x, p) { }
  }

  lemma {:induction false} RequestsOnlyKeep(s: System, s': System, r: nat)
    requires Inv(s) && s'.tokens == s.tokens
    requires forall q :: q in s'.requests && q != r ==> q in s.requests && s'.requests[q] == s.requests[q]
    requires r in s'.requests ==> s'.requests[r].Looked? && s'.requests[r].id in s.tokens
    ensures Inv(s')
  {
    forall x ensures TokenOk(s', x) { assert TokenOk(s, x); }
    forall q ensures RequestOk(s', q) { assert RequestOk(s, q); }
    forall q, i | IsRotating(s', q, i) ensures IsRotating(s, q, i) { }
    forall x, root | Live(s', x, root) ensures Live(s, x, root) { }
    forall x, p | IsChild(s', x, p) ensures IsChild(s, x, p) { }
  }

  lemma {:induction false} RevokeKeeps(s: System, r: nat)
    requires Inv(s)
    ensures Inv(ApplyRevoke(s, r))
  {
    var s' := ApplyRevoke(s, r);
    if s' == s {
    } else if s'.tokens == s.tokens {
      RequestsOnlyKeep(s, s', r);
    } else {
      var id := s.requests[r].id;
      assert Live(s, id, s.tokens[id].root);
      forall x ensures TokenOk(s', x) { assert TokenOk(s, x); }
      forall q ensures RequestOk(s', q) { assert RequestOk(s, q); }
      forall x, root | Live(s', x, root) ensures Live(s, x, root) && x != id { }
      forall q, i | IsRotating(s', q, i) ensures if q == r then i == id else IsRotating(s, q, i) { }
      forall x, p | IsChild(s', x, p) ensures IsChild(s, x, p) && p != id { assert TokenOk(s, x); }
    }
  }

  lemma {:induction false} IssueKeeps(s: System, r: nat, id: Id, hash: string, expiresAt: int)
    requires Inv(s) && Fresh(s, id, hash)
    ensures Inv(ApplyIssue(s, r, id, hash, expiresAt))
  {
    var s' := ApplyIssue(s, r, id, hash, expiresAt);
    if s' != s {
      var from := s.requests[r].id;
      assert IsRotating(s, r, from) && RequestOk(s, r) && TokenOk(s, from);
      forall x ensures TokenOk(s', x) { assert TokenOk(s, x); }
      forall q ensures RequestOk(s', q) { assert RequestOk(s, q); }
      forall x, root | Live(s', x, root)
        ensures if x == id then root == s.tokens[from].root else Live(s, x, root)
      {
      }
      forall q, i | IsRotating(s', q, i)
        ensures q != r && IsRotating(s, q, i) && i in s.tokens && s.tokens[i].root != s.tokens[from].root
      {
        assert RequestOk(s, q) && IsRotating(s, q, i);
        assert SameLogin(s, i, from) ==> q == r;
      }
      forall x, p | IsChild(s', x, p)
        ensures if x == id then p == from else IsChild(s, x, p)
      {
      }
    }
  }

  lemma {:induction false} InvAlways(steps: seq<Step>)
    requires Legal(steps)
    ensures Inv(Run(steps))
  {
    if steps != [] {
      InvAlways(Front(steps));
      StepKeeps(Run(Front(steps)), Last(steps));
    }
  }

  lemma {:induction false} StepKeeps(s: System, step: Step)
    requires Inv(s) && Allowed(s, step)
    ensures Inv(Apply(s, step))
  {
    match step
    case Login(id, user, hash, expiresAt) => LoginKeeps(s, id, user, hash, expiresAt);
    case Lookup(r, _, _, _, _) => RequestsOnlyKeep(s, Apply(s, step), r);
    case Revoke(r) => RevokeKeeps(s, r);
    case Issue(r, id, hash, expiresAt) => IssueKeeps(s, r, id, hash, expiresAt);
    case Abandon(r) => RequestsOnlyKeep(s, Apply(s, step), r);
  }

  /** Single use: in every interleaving of any number of rotations and logouts, a refresh token, as
      its holder presents it, has at most one successor. */
  lemma {:induction false} AtMostOneSuccessor(steps: seq<Step>, a: Id, b: Id, p: Id, q: Id)
    requires Legal(steps) && IsChild(Run(steps), a, p) && IsChild(Run(steps), b, q)
    requires var t := Run(steps).tokens; p in t && q in t && t[p].row.hash == t[q].row.hash
    ensures a == b
  {
    InvAlways(steps);
  }

  /** One live token per login: of all tokens that go back to one login, at most one is unrevoked. */
  lemma {:induction false} AtMostOneLive(steps: seq<Step>, a: Id, b: Id, login: Id)
    requires Legal(steps) && Live(Run(steps), a, login) && Live(Run(steps), b, login)
    ensures a == b
  {
    InvAlways(steps);
  }

  /** A session never changes hands: every token that goes back to a login is that login's user's. */
  lemma {:induction false} ChainKeepsUser(steps: seq<Step>, id: Id)
    requires Legal(steps) && id in Run(steps).tokens
    ensures var t := Run(steps).tokens; t[id].root in t && t[t[id].root].row.user == t[id].row.user
  {
    InvAlways(steps);
    assert TokenOk(Run(steps), id);
  }

  /** Revocation is final: whatever anyone does afterwards, a revoked token stays as it is. */
  lemma {:induction false} RevokedForGood(steps: seq<Step>, more: seq<Step>, id: Id)
    requires Legal(steps + more) && id in Run(steps).tokens && Run(steps).tokens[id].row.revoked
    ensures id in Run(steps + more).tokens && Run(steps + more).tokens[id] == Run(steps).tokens[id]
  {
    if more == [] {
      assert steps + more == steps;
    } else {
      Snoc(more);
      assert steps + more == (steps + Front(more)) + [Last(more)];
      FrontLast(steps + Front(more), Last(more));
      RevokedForGood(steps, Front(more), id);
      TermsStay(Run(steps + Front(more)), Last(more), id);
    }
  }

  // ---------------------------------------------------------------------------
  // No successor of an expired token
  // ---------------------------------------------------------------------------

  /** The last Lookup by request r presented the hash of p, then unrevoked, no later than it expires. */
  predicate LookedInTime(steps: seq<Step>, r: nat, p: Id, hash: string, expiresAt: int) {
    steps != [] &&
    if Last(steps).Lookup? && Last(steps).request == r then
      && Last(steps).found == p && Last(steps).hash == hash && Last(steps).now <= expiresAt
      && p in Run(Front(steps)).tokens && !Run(Front(steps)).tokens[p].row.revoked
    else LookedInTime(Front(steps), r, p, hash, expiresAt)
  }

  /** The step that issued a was by a request whose Lookup presented p in time. */
  predicate IssuedInTime(steps: seq<Step>, a: Id, p: Id, hash: string, expiresAt: int) {
    steps != [] &&
    if a !in Run(Front(steps)).tokens then
      Last(steps).Issue? && Last(steps).id == a && LookedInTime(Front(steps), Last(steps).request, p, hash, expiresAt)
    else IssuedInTime(Front(steps), a, p, hash, expiresAt)
  }

  /** A step leaves the hash and expiry of every token, and a revoked one altogether. */
  lemma {:induction false} TermsStay(s: System, step: Step, p: Id)
    requires Allowed(s, step) && p in s.tokens
    ensures p in Apply(s, step).tokens && Apply(s, step).tokens[p].parent == s.tokens[p].parent
    ensures Apply(s, step).tokens[p].row.hash == s.tokens[p].row.hash
    ensures Apply(s, step).tokens[p].row.expiresAt == s.tokens[p].row.expiresAt
    ensures s.tokens[p].row.revoked ==> Apply(s, step).tokens[p] == s.tokens[p]
  {
  }

  /** Only a Lookup makes a request, and only a Lookup of a usable token one that may issue. */
  lemma {:induction false} MayIssue(s: System, step: Step, r: nat, p: Id)
    requires MayStillIssue(Apply(s, step), r, p)
    ensures MayStillIssue(s, r, p) || step.Lookup?
    ensures step.Lookup? && step.request == r && r !in s.requests ==>
              && step.found == p && p in s.tokens && step.hash == s.tokens[p].row.hash
              && !s.tokens[p].row.revoked && step.now <= s.tokens[p].row.expiresAt
    ensures step.Lookup? && step.request != r ==> MayStillIssue(s, r, p)
  {
  }

  predicate MayStillIssue(s: System, r: nat, p: Id) {
    r in s.requests && (s.requests[r] == Looked(p, true) || s.requests[r] == Rotating(p))
  }

  lemma {:induction false} RotationsLookedInTime(steps: seq<Step>, r: nat, p: Id)
    requires Legal(steps) && MayStillIssue(Run(steps), r, p)
    ensures p in Run(steps).tokens
    ensures LookedInTime(steps, r, p, Run(steps).tokens[p].row.hash, Run(steps).tokens[p].row.expiresAt)
  {
    var s, step := Run(Front(steps)), Last(steps);
    MayIssue(s, step, r, p);
    if !(step.Lookup? && step.request == r) {
      RotationsLookedInTime(Front(steps), r, p);
    }
    TermsStay(s, step, p);
  }

  /** Expiry, over every run: each successor was issued by a rotation that looked its token up unrevoked
      and no later than the token expires. */
  lemma {:induction false} NoneFromExpired(steps: seq<Step>, a: Id, p: Id)
    requires Legal(steps) && IsChild(Run(steps), a, p)
    ensures p in Run(steps).tokens
    ensures IssuedInTime(steps, a, p, Run(steps).tokens[p].row.hash, Run(steps).tokens[p].row.expiresAt)
  {
    var s, step := Run(Front(steps)), Last(steps);
    if a in s.tokens {
      TermsStay(s, step, a);
      NoneFromExpired(Front(steps), a, p);
    } else {
      RotationsLookedInTime(Front(steps), step.request, p);
    }
    TermsStay(s, step, p);
  }

  // ---------------------------------------------------------------------------
  // Steps are statements
  // ---------------------------------------------------------------------------

  /** The table, as the database holds it. */
  function RowsOf(s: System): map<Id, Row> {
    map id | id in s.tokens :: s.tokens[id].row
  }

  /** The revoke step is the UPDATE of an unrevoked row, and a rotation goes on exactly when that
      touched a row. */
  lemma {:induction false} RevokeIsStatement(s: System, r: nat)
    requires r in s.requests && s.requests[r].Looked? && s.requests[r].id in s.tokens
    ensures var s', id, rows := ApplyRevoke(s, r), s.requests[r].id, RowsOf(s);
            && RowsOf(s') == (if rows[id].revoked then rows else rows[id := rows[id].(revoked := true)])
            && (IsRotating(s', r, id) <==> !rows[id].revoked && s.requests[r].rotating)
  {
  }

  /** Login and issue are the INSERT, the successor for the stored row's user. */
  lemma {:induction false} CreateIsStatement(s: System, r: nat, id: Id, user: string, hash: string, expiresAt: int)
    ensures RowsOf(Apply(s, Login(id, user, hash, expiresAt))) == RowsOf(s)[id := Row(user, hash, expiresAt, false)]
    ensures r in s.requests && s.requests[r].Rotating? && s.requests[r].id in s.tokens ==>
              RowsOf(ApplyIssue(s, r, id, hash, expiresAt)) ==
              RowsOf(s)[id := Row(RowsOf(s)[s.requests[r].id].user, hash, expiresAt, false)]
  {
  }

  /** What one rotation presenting hash at time now does to the table: it succeeds exactly for a known,
      unrevoked, unexpired token when issuing succeeds, revokes that token only, and adds its user's
      successor. Every other row, an expired one among them, stays as it is. */
  ghost predicate Rotated(rows: map<Id, Row>, rows': map<Id, Row>, session: bool, hash: string, now: int,
                          issued: Row, id: Id, issues: bool) {
    && (session <==>
        issues && exists k :: k in rows && rows[k].hash == hash && !rows[k].revoked && now <= rows[k].expiresAt)
    && rows'.Keys == rows.Keys + (if session then {id} else {}) && (session ==> id in rows')
    && (forall k :: k in rows ==>
          && k in rows'
          && rows'[k] == if rows[k].hash == hash && now <= rows[k].expiresAt then rows[k].(revoked := true)
                         else rows[k])
    && (session ==> forall k :: k in rows && rows[k].hash == hash ==> rows'[id] == issued.(user := rows[k].user))
  }

  ghost predicate UniqueHashes(rows: map<Id, Row>) {
    forall a, b :: a in rows && b in rows && rows[a].hash == rows[b].hash ==> a == b
  }

  /** A rotation's steps taken without interference: lookup, revoke, then issue or failure. */
  function RotateAlone(s: System, r: nat, hash: string, found: Id, now: int,
                       id: Id, issued: Row, issues: bool): System {
    var revoked := Apply(Apply(s, Lookup(r, hash, found, now, true)), Revoke(r));
    if issues then Apply(revoked, Issue(r, id, issued.hash, issued.expiresAt)) else Apply(revoked, Abandon(r))
  }

  /** They do to the table what Rotate does. */
  lemma {:induction false} StepsRotate(s: System, r: nat, hash: string, found: Id, now: int,
                                       id: Id, issued: Row, issues: bool)
    requires Inv(s) && r !in s.requests && Fresh(s, id, issued.hash) && !issued.revoked
    requires (exists k :: k in s.tokens && s.tokens[k].row.hash == hash) ==>
               found in s.tokens && s.tokens[found].row.hash == hash
    ensures var s' := RotateAlone(s, r, hash, found, now, id, issued, issues);
            Rotated(RowsOf(s), RowsOf(s'), id in s'.tokens, hash, now, issued, id, issues)
  {
    var rows, looked := RowsOf(s), Apply(s, Lookup(r, hash, found, now, true));
    if found in s.tokens && s.tokens[found].row.hash == hash {
      if Usable(s.tokens[found].row, now) {
        RevokeIsStatement(looked, r);
        CreateIsStatement(ApplyRevoke(looked, r), r, id, issued.user, issued.hash, issued.expiresAt);
        assert rows[found].hash == hash && !rows[found].revoked && now <= rows[found].expiresAt;
      }
    }
  }

  // ---------------------------------------------------------------------------
  // The repository and the rotation, in place
  // ---------------------------------------------------------------------------

  class Repository {
    var rows: map<Id, Row>

    constructor ()
      ensures rows == map[]
    {
      rows := map[];
    }

    /** The id is the one the database generates. */
    method Create(id: Id, user: string, hash: string, expiresAt: int)
      requires id !in rows
      modifies this
      ensures rows == old(rows)[id := Row(user, hash, expiresAt, false)]
    {
      rows := rows[id := Row(user, hash, expiresAt, false)];
    }

    method GetByHash(hash: string) returns (found: Option<Id>)
      ensures found.Some? ==> found.value in rows && rows[found.value].hash == hash
      ensures found.None? ==> forall id :: id in rows ==> rows[id].hash != hash
    {
      if id: Id :| id in rows && rows[id].hash == hash {
        found := Some(id);
      } else {
        found := None;
      }
    }

    method Revoke(id: Id) returns (ok: bool)
      modifies this
      ensures ok <==> id in old(rows) && !old(rows)[id].revoked
      ensures rows == if ok then old(rows)[id := old(rows)[id].(revoked := true)] else old(rows)
    {
      ok := id in rows && !rows[id].revoked;
      if ok {
        rows := rows[id := rows[id].(revoked := true)];
      }
    }

    /** One rotation without interference; a failure to issue still leaves the old token revoked. */
    method Rotate(hash: string, now: int, id: Id, newHash: string, expiresAt: int, issues: bool)
      returns (session: Option<Id>)
      requires id !in rows && UniqueHashes(rows)
      modifies this
      ensures session.Some? ==> session.value == id
      ensures Rotated(old(rows), rows, session.Some?, hash, now, Row("", newHash, expiresAt, false), id, issues)
    {
      var stored := GetByHash(hash);
      if stored.None? {
        return None;
      }
      var row := rows[stored.value];
      if row.revoked || now > row.expiresAt {
        return None;
      }
      var ok := Revoke(stored.value);
      if !ok || !issues {
        return None;
      }
      Create(id, row.user, newHash, expiresAt);
      session := Some(id);
    }

    /** Logout: revokes the token presented, expired or not, and fails for one unknown or already revoked. */
    method Logout(hash: string) returns (ok: bool)
      requires UniqueHashes(rows)
      modifies this
      ensures ok <==> exists k :: k in old(rows) && old(rows)[k].hash == hash && !old(rows)[k].revoked
      ensures rows.Keys == old(rows).Keys
      ensures forall k :: k in old(rows) ==>
                rows[k] == if old(rows)[k].hash == hash then old(rows)[k].(revoked := true) else old(rows)[k]
    {
      var stored := GetByHash(hash);
      if stored.None? {
        return false;
      }
      ok := Revoke(stored.value);
    }
  }
}
