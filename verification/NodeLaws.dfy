/** What one agent keeps over every interleaving of its requests, handlers and crashes. */
module NodeLaws {
  import opened Wrappers
  import opened Json
  import opened Python
  import opened Signing
  import opened Delegation
  import opened Scope
  import opened AuditEvent
  import opened AuditTable
  import opened AuditLaws
  import opened Node
  import Manifest
  import Outcome

  // ---- Rows written by the server for its own work ----

  ghost predicate OwnRow(r: Row) {
    IsRecord(r.original) && |SignaturesOf(r.original)| == 1
  }

  ghost predicate OwnStarted(r: Row) {
    OwnRow(r) && r.typ == "delegation.started"
  }

  ghost predicate OwnCompletion(r: Row) {
    OwnRow(r) && (r.typ == "delegation.completed" || r.typ == "delegation.failed")
  }

  /** The row records work on the token of these claims. */
  ghost predicate SameWork(r: Row, claims: Claims) {
    && r.tokenJti == Some(claims.jti)
    && IsRecord(r.original) && ContentOf(r.original).GetText("token_jti") == Some(claims.jti)
    && ContentOf(r.original).GetText("delegator_id") == Some(claims.iss)
  }

  ghost function CountStarted(t: Table): nat {
    if t == [] then 0 else CountStarted(t[..|t| - 1]) + if OwnStarted(t[|t| - 1]) then 1 else 0
  }

  ghost function CountCompletions(t: Table): nat {
    if t == [] then 0 else CountCompletions(t[..|t| - 1]) + if OwnCompletion(t[|t| - 1]) then 1 else 0
  }

  ghost function CountRunning(xs: seq<Exec>): nat {
    if xs == [] then 0 else CountRunning(xs[..|xs| - 1]) + if xs[|xs| - 1].phase.Running? then 1 else 0
  }

  ghost function CountCrashed(xs: seq<Exec>): nat {
    if xs == [] then 0 else CountCrashed(xs[..|xs| - 1]) + if xs[|xs| - 1].phase.Crashed? then 1 else 0
  }

  ghost function CountFinished(xs: seq<Exec>): nat {
    if xs == [] then 0 else CountFinished(xs[..|xs| - 1]) + if xs[|xs| - 1].phase.Finished? then 1 else 0
  }

  // ---- The invariant ----

  ghost predicate ExecFits(t: Table, x: Exec) {
    && x.startRow < |t| && OwnStarted(t[x.startRow]) && SameWork(t[x.startRow], x.claims)
    && (x.phase.Finished? ==>
          x.startRow < x.phase.row < |t| && OwnCompletion(t[x.phase.row]) && SameWork(t[x.phase.row], x.claims))
  }

  ghost predicate Fits(t: Table, xs: seq<Exec>) {
    forall e | 0 <= e < |xs| :: ExecFits(t, xs[e])
  }

  /** No two executions share a started row, and no two finished ones a completion row. */
  ghost predicate Separate(xs: seq<Exec>) {
    && (forall e, f | 0 <= e < f < |xs| :: xs[e].startRow != xs[f].startRow)
    && (forall e, f | 0 <= e < f < |xs| && xs[e].phase.Finished? && xs[f].phase.Finished? :: xs[e].phase.row != xs[f].phase.row)
  }

  ghost predicate Covered(t: Table, xs: seq<Exec>) {
    && (forall i | 0 <= i < |t| && OwnStarted(t[i]) :: exists e :: 0 <= e < |xs| && xs[e].startRow == i)
    && (forall i | 0 <= i < |t| && OwnCompletion(t[i]) :: exists e :: 0 <= e < |xs| && xs[e].phase == Finished(i))
  }

  /** Started rows and executions correspond one to one, and so do completion rows and finished executions. */
  ghost predicate Matched(t: Table, xs: seq<Exec>) {
    Fits(t, xs) && Separate(xs) && Covered(t, xs)
  }

  ghost predicate Counted(t: Table, xs: seq<Exec>) {
    CountStarted(t) == |xs| && CountCompletions(t) == CountFinished(xs)
  }

  /** A token whose jti claim is a string is never executed after another execution under its jti. */
  ghost predicate AtMostOnce(xs: seq<Exec>) {
    forall e, f | 0 <= e < f < |xs| && xs[f].rawJti.JStr? :: xs[e].claims.jti != xs[f].claims.jti
  }

  ghost predicate NodeValid(cr: Crypto, n: Node) {
    && Valid(cr, n.log)
    && Matched(n.log, n.execs)
    && Counted(n.log, n.execs)
    && AtMostOnce(n.execs)
  }

  // ---- Counting ----

  lemma {:induction false} CountsSame(t: Table, u: Table)
    requires |t| == |u| && forall i | 0 <= i < |t| :: u[i].typ == t[i].typ && u[i].original == t[i].original
    ensures CountStarted(t) == CountStarted(u) && CountCompletions(t) == CountCompletions(u)
  {
    hide OwnRow;
    if t != [] {
      CountsSame(t[..|t| - 1], u[..|u| - 1]);
      assert OwnRow(t[|t| - 1]) == OwnRow(u[|t| - 1]) by { OwnRowSame(t[|t| - 1], u[|t| - 1]); }
    }
  }

  lemma OwnRowSame(r: Row, s: Row)
    requires r.original == s.original
    ensures OwnRow(r) == OwnRow(s)
  {
  }

  lemma CountsAppend(t: Table, r: Row)
    ensures CountStarted(t + [r]) == CountStarted(t) + if OwnStarted(r) then 1 else 0
    ensures CountCompletions(t + [r]) == CountCompletions(t) + if OwnCompletion(r) then 1 else 0
  {
    assert (t + [r])[..|t|] == t;
  }

  lemma {:induction false} FinishedUpdate(xs: seq<Exec>, i: nat, x: Exec)
    requires i < |xs|
    ensures CountFinished(xs[i := x]) ==
            CountFinished(xs) - (if xs[i].phase.Finished? then 1 else 0) + (if x.phase.Finished? then 1 else 0)
  {
    var n := |xs| - 1;
    if i == n {
      assert xs[i := x][..n] == xs[..n];
    } else {
      assert xs[i := x][..n] == xs[..n][i := x];
      FinishedUpdate(xs[..n], i, x);
    }
  }

  lemma FinishedAppend(xs: seq<Exec>, x: Exec)
    ensures CountFinished(xs + [x]) == CountFinished(xs) + if x.phase.Finished? then 1 else 0
  {
    assert (xs + [x])[..|xs|] == xs;
  }

  lemma {:induction false} FinishedSame(xs: seq<Exec>, ys: seq<Exec>)
    requires |xs| == |ys| && forall e | 0 <= e < |xs| :: xs[e].phase.Finished? == ys[e].phase.Finished?
    ensures CountFinished(xs) == CountFinished(ys)
  {
    if xs != [] {
      FinishedSame(xs[..|xs| - 1], ys[..|ys| - 1]);
    }
  }

  lemma {:induction false} PhasesPartition(xs: seq<Exec>)
    ensures CountRunning(xs) + CountCrashed(xs) + CountFinished(xs) == |xs|
  {
    if xs != [] {
      PhasesPartition(xs[..|xs| - 1]);
    }
  }

  // ---- Rows that do not concern the executions ----

  ghost predicate Neutral(r: Row) {
    !OwnStarted(r) && !OwnCompletion(r)
  }

  lemma ExecFitsGrows(t: Table, u: Table, x: Exec)
    requires Grows(t, u) && ExecFits(t, x)
    ensures ExecFits(u, x)
  {
    hide IsRecord;
  }

  lemma MatchedGrows(t: Table, u: Table, xs: seq<Exec>)
    requires Grows(t, u) && Matched(t, xs)
    requires forall i | |t| <= i < |u| :: Neutral(u[i])
    ensures Matched(u, xs)
  {
    hide IsRecord, ExecFits;
    forall e | 0 <= e < |xs|
      ensures ExecFits(u, xs[e])
    {
      ExecFitsGrows(t, u, xs[e]);
    }
    forall i | 0 <= i < |t|
      ensures OwnStarted(t[i]) == OwnStarted(u[i]) && OwnCompletion(t[i]) == OwnCompletion(u[i])
    {
    }
  }

  /** A log operation that adds no row about the node's own executions keeps everything. */
  lemma NeutralOp(cr: Crypto, n: Node, op: Op)
    requires NodeValid(cr, n)
    requires op.Self? || op.Pending? ==>
               TypeOf(op.event) !in {"delegation.started", "delegation.completed", "delegation.failed"}
    ensures var m := n.(log := Step(cr, n.log, op)); NodeValid(cr, m)
  {
    hide Matched, AtMostOnce, Content, SignOnly, FinalizePending, Valid, OwnRow;
    var t, u := n.log, Step(cr, n.log, op);
    StepValid(cr, t, op);
    StepGrows(cr, t, op);
    OpShape(cr, t, op);
    MatchedGrows(t, u, n.execs);
    if |u| == |t| {
      CountsSame(t, u);
    } else {
      CountsAppend(t, u[|t|]);
    }
  }

  lemma OpShape(cr: Crypto, t: Table, op: Op)
    requires Valid(cr, t)
    requires op.Self? || op.Pending? ==>
               TypeOf(op.event) !in {"delegation.started", "delegation.completed", "delegation.failed"}
    ensures var u := Step(cr, t, op);
            (|u| == |t| && forall i | 0 <= i < |t| :: u[i].typ == t[i].typ && u[i].original == t[i].original)
            || (|u| == |t| + 1 && u == t + [u[|t|]] && Neutral(u[|t|]))
  {
    hide Content, SignOnly, VerifyEnvelope, Valid, IsRecord, MakeRecord, FindEvent, FinalizePending;
    if Apply(cr, t, op).Ok? {
      match op
      case Finalize(id, sig, key) => StepGrows(cr, t, op); FinalizeLength(cr, t, id, sig, key);
      case Finalized(e, kp, signer, sig, key) => MakeRecordShape(Content(e), [SignOnly(cr, e, kp, signer), sig]);
      case _ =>
    }
  }

  lemma FinalizeLength(cr: Crypto, t: Table, eventId: string, peerSignature: Json, peerKey: PublicKey)
    requires FinalizePending(cr, t, eventId, peerSignature, peerKey).Ok?
    ensures |FinalizePending(cr, t, eventId, peerSignature, peerKey).value| == |t|
  {
  }

  // ---- Verification of a delegation, taken apart ----

  /** What an accepted delegation has passed. */
  lemma AcceptedFacts(cr: Crypto, n: Node, token: string, requiredScope: string, now: int, stamp: Stamp)
    requires VerifyDelegation(cr, n, token, requiredScope, now, stamp).1.Ok?
    ensures var (m, r) := VerifyDelegation(cr, n, token, requiredScope, now, stamp);
            var claims := r.value;
            && m == n
            && claims.iss in n.peers && claims.sub == n.id && claims.nbf <= now < claims.exp
            && StrOf(RawJti(token)) == Some(claims.jti) && Bindable(RawJti(token)) && !ReplayDetected(n.log, RawJti(token))
            && VerifyToken(cr, token, n.peers[claims.iss].publicKey, n.id, requiredScope, n.peers[claims.iss].manifest, now) == Ok(claims)
  {
    hide ReplayDetected, ScopeCovers, ManifestHas, DecodeJson, DictOf, StrOf;
    var payload := PeekPayload(token).value;
    var claims := VerifyDelegation(cr, n, token, requiredScope, now, stamp).1.value;
    var iss := payload.GetText("iss").value;
    var key := n.peers[iss].publicKey;
    assert VerifyCompact(cr, token, key).value.1 == payload;
  }

  /**
   Authority: an accepted delegation's required capability lies under a capability that the
   delegator's registered manifest itself declares.
   */
  lemma AcceptedAuthorityOfPeer(cr: Crypto, n: Node, token: string, requiredScope: string, now: int, stamp: Stamp)
    requires VerifyDelegation(cr, n, token, requiredScope, now, stamp).1.Ok?
    ensures var claims := VerifyDelegation(cr, n, token, requiredScope, now, stamp).1.value;
            && claims.iss in n.peers
            && DeclaredItems(n.peers[claims.iss].manifest).Some?
            && exists i :: 0 <= i < |DeclaredItems(n.peers[claims.iss].manifest).value|
                           && Declares(DeclaredItems(n.peers[claims.iss].manifest).value, i, requiredScope)
  {
    hide VerifyDelegation, VerifyToken, Declares;
    AcceptedFacts(cr, n, token, requiredScope, now, stamp);
    var claims := VerifyDelegation(cr, n, token, requiredScope, now, stamp).1.value;
    var peer := n.peers[claims.iss];
    AcceptedAuthority(cr, token, peer.publicKey, n.id, requiredScope, peer.manifest, now);
    ScanMeans(DeclaredItems(peer.manifest).value, requiredScope);
  }

  // ---- Each step keeps the invariant ----

  lemma StartedRow(cr: Crypto, n: Node, claims: Claims, stamp: Stamp)
    requires Apply(cr, n.log, Self(StartedEvent(n, claims, stamp), n.kp, n.id)).Ok?
    ensures var u := Apply(cr, n.log, Self(StartedEvent(n, claims, stamp), n.kp, n.id)).value;
            && |u| == |n.log| + 1 && u[..|n.log|] == n.log
            && OwnStarted(u[|n.log|]) && !OwnCompletion(u[|n.log|]) && SameWork(u[|n.log|], claims)
  {
    hide SignOnly, LatestHash, ChainHash, IsRecord, MakeRecord;
    var e := StartedEvent(n, claims, stamp);
    MakeRecordShape(Content(e), [SignOnly(cr, e, n.kp, n.id)]);
    assert Content(e).GetText("delegator_id") == Some(claims.iss);
  }

  lemma CompletionRow(cr: Crypto, n: Node, claims: Claims, outcome: Outcome.Outcome, stamp: Stamp)
    requires Apply(cr, n.log, Pending(CompletionEvent(cr, claims, outcome, stamp), n.kp, n.id)).Ok?
    ensures var u := Apply(cr, n.log, Pending(CompletionEvent(cr, claims, outcome, stamp), n.kp, n.id)).value;
            && |u| == |n.log| + 1 && u[..|n.log|] == n.log
            && OwnCompletion(u[|n.log|]) && !OwnStarted(u[|n.log|]) && SameWork(u[|n.log|], claims)
  {
    hide SignOnly, LatestHash, ChainHash, IsRecord, MakeRecord;
    var e := CompletionEvent(cr, claims, outcome, stamp);
    MakeRecordShape(Content(e), [SignOnly(cr, e, n.kp, n.id)]);
    assert Content(e).GetText("delegator_id") == Some(claims.iss);
  }

  lemma CoveredStart(t: Table, u: Table, xs: seq<Exec>, x: Exec)
    requires Covered(t, xs) && |u| == |t| + 1 && u == t + [u[|t|]] && x.startRow == |t| && !OwnCompletion(u[|t|])
    ensures Covered(u, xs + [x])
  {
    hide OwnStarted, OwnCompletion;
    var ys := xs + [x];
    forall i | 0 <= i < |u| && OwnStarted(u[i])
      ensures exists e :: 0 <= e < |ys| && ys[e].startRow == i
    {
      if i == |t| {
        assert ys[|xs|].startRow == i;
      } else {
        var e :| 0 <= e < |xs| && xs[e].startRow == i;
        assert ys[e] == xs[e];
      }
    }
    forall i | 0 <= i < |u| && OwnCompletion(u[i])
      ensures exists e :: 0 <= e < |ys| && ys[e].phase == Finished(i)
    {
      var e :| 0 <= e < |xs| && xs[e].phase == Finished(i);
      assert ys[e] == xs[e];
    }
  }

  lemma MatchedStart(t: Table, u: Table, xs: seq<Exec>, x: Exec)
    requires Grows(t, u) && |u| == |t| + 1 && Matched(t, xs) && Counted(t, xs)
    requires u == t + [u[|t|]]
    requires OwnStarted(u[|t|]) && !OwnCompletion(u[|t|]) && SameWork(u[|t|], x.claims)
    requires x.startRow == |t| && x.phase.Running?
    ensures Matched(u, xs + [x]) && Counted(u, xs + [x])
  {
    hide SameWork, Grows, Covered, OwnStarted, OwnCompletion;
    CountsAppend(t, u[|t|]);
    FinishedAppend(xs, x);
    CoveredStart(t, u, xs, x);
    forall e | 0 <= e < |xs|
      ensures ExecFits(u, xs[e])
    {
      ExecFitsGrows(t, u, xs[e]);
    }
  }

  lemma CoveredFinish(t: Table, u: Table, xs: seq<Exec>, k: nat)
    requires Covered(t, xs) && |u| == |t| + 1 && u == t + [u[|t|]] && k < |xs| && xs[k].phase.Running? && !OwnStarted(u[|t|])
    ensures Covered(u, xs[k := xs[k].(phase := Finished(|t|))])
  {
    hide OwnStarted, OwnCompletion;
    var ys := xs[k := xs[k].(phase := Finished(|t|))];
    forall i | 0 <= i < |u| && OwnStarted(u[i])
      ensures exists e :: 0 <= e < |ys| && ys[e].startRow == i
    {
      var e :| 0 <= e < |xs| && xs[e].startRow == i;
      assert ys[e].startRow == i;
    }
    forall i | 0 <= i < |u| && OwnCompletion(u[i])
      ensures exists e :: 0 <= e < |ys| && ys[e].phase == Finished(i)
    {
      if i == |t| {
        assert ys[k].phase == Finished(i);
      } else {
        var e :| 0 <= e < |xs| && xs[e].phase == Finished(i);
        assert ys[e] == xs[e];
      }
    }
  }

  lemma MatchedFinish(t: Table, u: Table, xs: seq<Exec>, k: nat)
    requires Grows(t, u) && |u| == |t| + 1 && Matched(t, xs) && Counted(t, xs)
    requires u == t + [u[|t|]]
    requires k < |xs| && xs[k].phase.Running?
    requires OwnCompletion(u[|t|]) && !OwnStarted(u[|t|]) && SameWork(u[|t|], xs[k].claims)
    ensures var ys := xs[k := xs[k].(phase := Finished(|t|))]; Matched(u, ys) && Counted(u, ys)
  {
    hide SameWork, Grows, Covered, OwnStarted, OwnCompletion;
    var ys := xs[k := xs[k].(phase := Finished(|t|))];
    CountsAppend(t, u[|t|]);
    FinishedUpdate(xs, k, ys[k]);
    CoveredFinish(t, u, xs, k);
    forall e | 0 <= e < |ys|
      ensures ExecFits(u, ys[e])
    {
      ExecFitsGrows(t, u, xs[e]);
    }
    assert Separate(ys) by {
      assert forall e | 0 <= e < |xs| && xs[e].phase.Finished? :: ExecFits(t, xs[e]) && xs[e].phase.row < |t|;
    }
  }

  ghost predicate CrashedInto(xs: seq<Exec>, ys: seq<Exec>) {
    && |ys| == |xs|
    && (forall e | 0 <= e < |xs| :: ys[e] == xs[e] || (xs[e].phase.Running? && ys[e] == xs[e].(phase := Crashed)))
  }

  lemma CoveredCrash(t: Table, xs: seq<Exec>, ys: seq<Exec>)
    requires Covered(t, xs) && CrashedInto(xs, ys)
    ensures Covered(t, ys)
  {
    hide OwnStarted, OwnCompletion;
    forall i | 0 <= i < |t| && OwnStarted(t[i])
      ensures exists e :: 0 <= e < |ys| && ys[e].startRow == i
    {
      var e :| 0 <= e < |xs| && xs[e].startRow == i;
      assert ys[e].startRow == i;
    }
    forall i | 0 <= i < |t| && OwnCompletion(t[i])
      ensures exists e :: 0 <= e < |ys| && ys[e].phase == Finished(i)
    {
      var e :| 0 <= e < |xs| && xs[e].phase == Finished(i);
      assert ys[e].phase == Finished(i);
    }
  }

  /** Marking a running execution as crashed touches no row. */
  lemma MatchedCrash(t: Table, xs: seq<Exec>, ys: seq<Exec>)
    requires Matched(t, xs) && Counted(t, xs) && CrashedInto(xs, ys)
    ensures Matched(t, ys) && Counted(t, ys)
  {
    hide SameWork, Covered, OwnStarted, OwnCompletion;
    FinishedSame(xs, ys);
    CoveredCrash(t, xs, ys);
    forall e | 0 <= e < |ys|
      ensures ExecFits(t, ys[e])
    {
      assert ExecFits(t, xs[e]);
    }
  }

  lemma FreshJti(cr: Crypto, t: Table, xs: seq<Exec>, x: Exec)
    requires Valid(cr, t) && Matched(t, xs) && AtMostOnce(xs)
    requires !ReplayDetected(t, x.rawJti) && StrOf(x.rawJti) == Some(x.claims.jti)
    ensures AtMostOnce(xs + [x])
  {
    hide Valid, ReplayDetected, SameWork, UsedBy;
    var ys := xs + [x];
    ReplayExact(cr, t, x.rawJti);
    if x.rawJti.JStr? {
      forall e | 0 <= e < |xs|
        ensures xs[e].claims.jti != x.claims.jti
      {
        assert ExecFits(t, xs[e]);
        WorkUses(cr, t, xs[e].startRow, xs[e].claims);
      }
    }
  }

  /** A row about work that has started counts as use of the jti as text. */
  lemma WorkUses(cr: Crypto, t: Table, i: nat, claims: Claims)
    requires Valid(cr, t) && i < |t| && SameWork(t[i], claims) && IsUse(t[i].typ)
    ensures UsedBy(t[i], JStr(claims.jti)) && JtiUsed(t, JStr(claims.jti))
  {
    hide Linked, Indexed, DistinctIds;
    assert Commits(t[i]);
  }

  lemma BeginKeeps(cr: Crypto, n: Node, action: string, token: string, now: int, stamp: Stamp)
    requires NodeValid(cr, n)
    ensures NodeValid(cr, InvokeBegin(cr, n, action, token, now, stamp).0)
  {
    hide Valid, Matched, Counted, AtMostOnce, VerifyDelegation, Grows, OwnStarted, OwnCompletion, SameWork, Apply, StartedEvent,
         RawJti, StrOf, VerifyToken, ReplayDetected;
    var (m, r) := InvokeBegin(cr, n, action, token, now, stamp);
    if token != "" && action != "" && action in n.handlers {
      var scope := n.handlers[action].capability;
      var v := VerifyDelegation(cr, n, token, scope, now, stamp);
      if v.1.Raise? {
        RejectedShape(cr, n, token, scope, now, stamp);
        RejectedKeeps(cr, n, token, scope, now, stamp);
      } else if r.Ok? {
        AcceptedFacts(cr, n, token, scope, now, stamp);
        var op := Self(StartedEvent(n, v.1.value, stamp), n.kp, n.id);
        StepValid(cr, n.log, op);
        StepGrows(cr, n.log, op);
        StartedRow(cr, n, v.1.value, stamp);
        assert m.log == n.log + [m.log[|n.log|]];
        MatchedStart(n.log, m.log, n.execs, m.execs[|n.execs|]);
        FreshJti(cr, n.log, n.execs, m.execs[|n.execs|]);
      }
    }
  }

  /** A rejected delegation changes nothing, except that a replay leaves one row of evidence. */
  lemma RejectedShape(cr: Crypto, n: Node, token: string, requiredScope: string, now: int, stamp: Stamp)
    requires VerifyDelegation(cr, n, token, requiredScope, now, stamp).1.Raise?
    ensures var (m, r) := VerifyDelegation(cr, n, token, requiredScope, now, stamp);
            m == n
            || (r == Raise(TokenReplay)
                && exists e: AuditEvent :: e.typ == JStr("delegation.replay_attempt")
                                           && m == n.(log := Step(cr, n.log, Self(e, n.kp, n.id))))
  {
    hide ReplayDetected, VerifyToken, Apply, PeekPayload;
  }

  lemma RejectedKeeps(cr: Crypto, n: Node, token: string, requiredScope: string, now: int, stamp: Stamp)
    requires NodeValid(cr, n)
    requires VerifyDelegation(cr, n, token, requiredScope, now, stamp).1.Raise?
    ensures NodeValid(cr, VerifyDelegation(cr, n, token, requiredScope, now, stamp).0)
  {
    hide NodeValid, VerifyDelegation, Step;
    RejectedShape(cr, n, token, requiredScope, now, stamp);
    var m := VerifyDelegation(cr, n, token, requiredScope, now, stamp).0;
    if m != n {
      var e: AuditEvent :| e.typ == JStr("delegation.replay_attempt") && m == n.(log := Step(cr, n.log, Self(e, n.kp, n.id)));
      NeutralOp(cr, n, Self(e, n.kp, n.id));
    }
  }

  lemma FinishKeeps(cr: Crypto, n: Node, i: nat, result: HandlerResult, executedAt: int, stamp: Stamp)
    requires NodeValid(cr, n) && i < |n.execs| && n.execs[i].phase.Running?
    ensures NodeValid(cr, InvokeFinish(cr, n, i, result, executedAt, stamp).0)
  {
    hide Valid, Matched, Counted, Grows, OwnStarted, OwnCompletion, SameWork, Apply, CompletionEvent, OutcomeOf,
         Outcome.SignOutcome, SignOnly, Content;
    var (m, r) := InvokeFinish(cr, n, i, result, executedAt, stamp);
    var exec := n.execs[i];
    if r.Raise? {
      MatchedCrash(n.log, n.execs, m.execs);
    } else {
      var outcome := OutcomeOf(exec, result, executedAt);
      var op := Pending(CompletionEvent(cr, exec.claims, outcome, stamp), n.kp, n.id);
      StepValid(cr, n.log, op);
      StepGrows(cr, n.log, op);
      CompletionRow(cr, n, exec.claims, outcome, stamp);
      assert m.log == n.log + [m.log[|n.log|]];
      MatchedFinish(n.log, m.log, n.execs, i);
    }
  }

  lemma ReceiveKeeps(cr: Crypto, n: Node, delegateeId: string, expectedSchema: Option<string>, jti: Json,
                     response: Response, detail: string, stamp: Stamp)
    requires NodeValid(cr, n)
    ensures NodeValid(cr, ClientReceive(cr, n, delegateeId, expectedSchema, jti, response, detail, stamp).0)
  {
    hide NodeValid, Apply, FromContent;
    NeutralOp(cr, n, Self(DisputeEvent(n, delegateeId, jti, detail, stamp), n.kp, n.id));
    if delegateeId in n.peers && FromContent(response.content).Some? {
      NeutralOp(cr, n, Finalized(FromContent(response.content).value, n.kp, n.id, response.signature, n.peers[delegateeId].publicKey));
    }
  }

  lemma NextKeeps(cr: Crypto, n: Node, step: NodeStep)
    requires NodeValid(cr, n)
    ensures NodeValid(cr, Next(cr, n, step).0)
  {
    hide Valid, Matched, Counted, InvokeBegin, InvokeFinish, ClientReceive, Apply, Manifest.VerifyManifest,
         Manifest.SignManifest, IssueToken, ScopeCovers;
    match step
    case Issue(to, scope, purpose, constraints, expiresIn, now, jti, stamp) =>
      NeutralOp(cr, n, Self(IssuedEvent(n, to, scope, purpose, jti, stamp), n.kp, n.id));
    case Begin(action, token, now, stamp) => BeginKeeps(cr, n, action, token, now, stamp);
    case Finish(i, result, executedAt, stamp) =>
      if i < |n.execs| && n.execs[i].phase.Running? {
        FinishKeeps(cr, n, i, result, executedAt, stamp);
      }
    case Cosign(eventId, signature) =>
      var peerId := signature.GetText("signed_by");
      if peerId.Some? && peerId.value in n.peers && ColumnOf(eventId).Some? {
        NeutralOp(cr, n, Finalize(ColumnOf(eventId).value, signature, n.peers[peerId.value].publicKey));
      }
    case Receive(delegateeId, expectedSchema, jti, response, detail, stamp, push) =>
      ReceiveKeeps(cr, n, delegateeId, expectedSchema, jti, response, detail, stamp);
    case Die =>
      MatchedCrash(n.log, n.execs, Crash(n).execs);
    case _ =>
  }

  // ---- Theorems over whole histories ----

  lemma {:induction false} RunKeeps(cr: Crypto, start: Node, steps: seq<NodeStep>)
    requires Fresh(start)
    ensures NodeValid(cr, RunNode(cr, start, steps))
  {
    hide Next, NodeValid;
    if steps == [] {
      FreshValid(cr, start);
    } else {
      RunKeeps(cr, start, steps[..|steps| - 1]);
      NextKeeps(cr, RunNode(cr, start, steps[..|steps| - 1]), steps[|steps| - 1]);
    }
  }

  lemma FreshValid(cr: Crypto, start: Node)
    requires Fresh(start)
    ensures NodeValid(cr, start)
  {
  }

  /**
   At-most-once execution, over every interleaving of requests, handlers, crashes and re-sent
   tokens: two executions under one jti are impossible unless the later token's jti claim was
   not a JSON string.
   */
  lemma ExecutedAtMostOnce(cr: Crypto, start: Node, steps: seq<NodeStep>, e: nat, f: nat)
    requires Fresh(start)
    requires e < f < |RunNode(cr, start, steps).execs|
    requires RunNode(cr, start, steps).execs[f].rawJti.JStr?
    ensures RunNode(cr, start, steps).execs[e].claims.jti != RunNode(cr, start, steps).execs[f].claims.jti
  {
    hide RunNode, Valid, Matched, Counted;
    RunKeeps(cr, start, steps);
  }

  /** Conservation of work: started rows are in-flight, crashed or completed executions, and nothing else. */
  lemma WorkConserved(cr: Crypto, start: Node, steps: seq<NodeStep>)
    requires Fresh(start)
    ensures var n := RunNode(cr, start, steps);
            CountStarted(n.log) == CountRunning(n.execs) + CountCrashed(n.execs) + CountCompletions(n.log)
  {
    hide RunNode, Valid, Matched, AtMostOnce;
    RunKeeps(cr, start, steps);
    PhasesPartition(RunNode(cr, start, steps).execs);
  }

  ghost predicate CompletesFrom(t: Table, i: nat, j: nat, xs: seq<Exec>) {
    && i < j < |t| && OwnStarted(t[i])
    && t[i].tokenJti == t[j].tokenJti
    && IsRecord(t[j].original)
    && ContentOf(t[i].original).GetText("delegator_id") == ContentOf(t[j].original).GetText("delegator_id")
    && exists e :: 0 <= e < |xs| && xs[e].startRow == i && xs[e].phase == Finished(j)
  }

  /** Each completion row has exactly one earlier started row, for the same token and delegator. */
  lemma CompletionHasStart(cr: Crypto, start: Node, steps: seq<NodeStep>, j: nat)
    requires Fresh(start)
    requires j < |RunNode(cr, start, steps).log| && OwnCompletion(RunNode(cr, start, steps).log[j])
    ensures var n := RunNode(cr, start, steps);
            && (exists i :: CompletesFrom(n.log, i, j, n.execs))
            && (forall i, k :: CompletesFrom(n.log, i, j, n.execs) && CompletesFrom(n.log, k, j, n.execs) ==> i == k)
  {
    hide RunNode, Valid, Counted, AtMostOnce, OwnRow;
    RunKeeps(cr, start, steps);
    var n := RunNode(cr, start, steps);
    var e :| 0 <= e < |n.execs| && n.execs[e].phase == Finished(j);
    assert ExecFits(n.log, n.execs[e]);
    assert CompletesFrom(n.log, n.execs[e].startRow, j, n.execs);
    forall i, k | CompletesFrom(n.log, i, j, n.execs) && CompletesFrom(n.log, k, j, n.execs)
      ensures i == k
    {
      var a :| 0 <= a < |n.execs| && n.execs[a].startRow == i && n.execs[a].phase == Finished(j);
      var b :| 0 <= b < |n.execs| && n.execs[b].startRow == k && n.execs[b].phase == Finished(j);
      assert a == b;
    }
  }

  /** Distinct completion rows come from distinct started rows. */
  lemma StartCompletesOnce(cr: Crypto, start: Node, steps: seq<NodeStep>, i: nat, j: nat, k: nat)
    requires Fresh(start)
    requires var n := RunNode(cr, start, steps);
             CompletesFrom(n.log, i, j, n.execs) && CompletesFrom(n.log, i, k, n.execs)
    ensures j == k
  {
    hide RunNode, Valid, Counted, AtMostOnce, OwnRow;
    RunKeeps(cr, start, steps);
    var n := RunNode(cr, start, steps);
    var a :| 0 <= a < |n.execs| && n.execs[a].startRow == i && n.execs[a].phase == Finished(j);
    var b :| 0 <= b < |n.execs| && n.execs[b].startRow == i && n.execs[b].phase == Finished(k);
    assert a == b;
  }

  // ---- Rejections ----

  ghost predicate SameUses(t: Table, u: Table) {
    forall jti :: JtiUsed(t, jti) <==> JtiUsed(u, jti)
  }

  lemma SelfAccepted(cr: Crypto, t: Table, event: AuditEvent, kp: KeyPair, signer: string)
    requires Storable(event) && !Taken(t, event)
    ensures Apply(cr, t, Self(event, kp, signer)).Ok?
  {
  }

  /** The verdict on a token depends on the log only through the set of used jtis. */
  lemma VerdictDepends(cr: Crypto, n: Node, m: Node, token: string, requiredScope: string, now: int, stamp: Stamp, stamp': Stamp)
    requires Valid(cr, n.log) && Valid(cr, m.log) && SameUses(n.log, m.log)
    requires n.id == m.id && n.peers == m.peers
    requires !HasEvent(n.log, stamp.eventId) && !HasEvent(m.log, stamp'.eventId)
    ensures VerifyDelegation(cr, n, token, requiredScope, now, stamp).1
            == VerifyDelegation(cr, m, token, requiredScope, now, stamp').1
  {
    hide ReplayDetected, VerifyToken, Valid, JtiUsed, Apply, HasEvent, PeekPayload, Bindable;
    if PeekPayload(token).Some? && PeekPayload(token).value.Get("jti").Some? && PeekPayload(token).value.GetText("iss").Some? {
      var jti, iss := PeekPayload(token).value.Get("jti").value, PeekPayload(token).value.GetText("iss").value;
      ReplayExact(cr, n.log, jti);
      ReplayExact(cr, m.log, jti);
      OwnColumns("delegation.replay_attempt", jti, iss, n.id, map[], stamp.eventId, stamp.ts);
      OwnColumns("delegation.replay_attempt", jti, iss, m.id, map[], stamp'.eventId, stamp'.ts);
      if Bindable(jti) {
        SelfAccepted(cr, n.log, ReplayEvent(n, iss, jti, stamp), n.kp, n.id);
        SelfAccepted(cr, m.log, ReplayEvent(m, iss, jti, stamp'), m.kp, m.id);
      }
    }
  }

  lemma ReplayRowNeutral(cr: Crypto, t: Table, e: AuditEvent, kp: KeyPair, signer: string)
    requires e.typ == JStr("delegation.replay_attempt")
    ensures SameUses(t, Step(cr, t, Self(e, kp, signer)))
    ensures var u := Step(cr, t, Self(e, kp, signer));
            u == t || (|u| == |t| + 1 && u[..|t|] == t && u[|t|].typ == "delegation.replay_attempt")
  {
    hide SignOnly, LatestHash, ChainHash, Content;
    var u := Step(cr, t, Self(e, kp, signer));
    if u != t {
      assert forall i | 0 <= i < |t| :: u[i] == t[i];
    }
  }

  /** A rejected invocation adds at most one replay row and uses up no jti. */
  lemma RejectionNeutral(cr: Crypto, n: Node, action: string, token: string, now: int, stamp: Stamp)
    requires NodeValid(cr, n) && InvokeBegin(cr, n, action, token, now, stamp).1.Raise?
    ensures var m := InvokeBegin(cr, n, action, token, now, stamp).0;
            && NodeValid(cr, m) && m == n.(log := m.log) && SameUses(n.log, m.log)
            && (m.log == n.log
                || (|m.log| == |n.log| + 1 && m.log[..|n.log|] == n.log && m.log[|n.log|].typ == "delegation.replay_attempt"))
  {
    hide NodeValid, VerifyDelegation, JtiUsed, Apply, StartedEvent;
    BeginKeeps(cr, n, action, token, now, stamp);
    if token != "" && action != "" && action in n.handlers {
      var scope := n.handlers[action].capability;
      var (m, r) := VerifyDelegation(cr, n, token, scope, now, stamp);
      if r.Raise? {
        RejectedShape(cr, n, token, scope, now, stamp);
        if m != n {
          var e: AuditEvent :| e.typ == JStr("delegation.replay_attempt") && m == n.(log := Step(cr, n.log, Self(e, n.kp, n.id)));
          ReplayRowNeutral(cr, n.log, e, n.kp, n.id);
        }
      }
    }
  }

  datatype Attempt = Attempt(action: string, token: string, now: int, stamp: Stamp)

  ghost function AfterAttempts(cr: Crypto, n: Node, attempts: seq<Attempt>): Node {
    if attempts == [] then n
    else
      var a := attempts[|attempts| - 1];
      InvokeBegin(cr, AfterAttempts(cr, n, attempts[..|attempts| - 1]), a.action, a.token, a.now, a.stamp).0
  }

  ghost predicate AllRejected(cr: Crypto, n: Node, attempts: seq<Attempt>) {
    forall k | 0 <= k < |attempts| ::
      InvokeBegin(cr, AfterAttempts(cr, n, attempts[..k]), attempts[k].action, attempts[k].token, attempts[k].now, attempts[k].stamp).1.Raise?
  }

  /** Any number of rejected invocations later, every token gets the verdict it would have got at once. */
  lemma {:induction false} RejectionsConsumeNothing(cr: Crypto, n: Node, attempts: seq<Attempt>)
    requires NodeValid(cr, n) && AllRejected(cr, n, attempts)
    ensures var m := AfterAttempts(cr, n, attempts);
            && NodeValid(cr, m) && SameUses(n.log, m.log) && m == n.(log := m.log)
            && forall token, requiredScope, now, stamp: Stamp, stamp': Stamp | !HasEvent(m.log, stamp.eventId) && !HasEvent(n.log, stamp'.eventId) ::
                 VerifyDelegation(cr, m, token, requiredScope, now, stamp).1 == VerifyDelegation(cr, n, token, requiredScope, now, stamp').1
  {
    hide InvokeBegin, VerifyDelegation, JtiUsed, Matched, Counted, AtMostOnce, Valid;
    var m := AfterAttempts(cr, n, attempts);
    if attempts != [] {
      var before, a := attempts[..|attempts| - 1], attempts[|attempts| - 1];
      assert AllRejected(cr, n, before) by {
        assert forall k | 0 <= k < |before| :: before[k] == attempts[k] && before[..k] == attempts[..k];
      }
      RejectionsConsumeNothing(cr, n, before);
      RejectionNeutral(cr, AfterAttempts(cr, n, before), a.action, a.token, a.now, a.stamp);
    }
    forall token, requiredScope, now, stamp: Stamp, stamp': Stamp | !HasEvent(m.log, stamp.eventId) && !HasEvent(n.log, stamp'.eventId)
      ensures VerifyDelegation(cr, m, token, requiredScope, now, stamp).1 == VerifyDelegation(cr, n, token, requiredScope, now, stamp').1
    {
      VerdictDepends(cr, m, n, token, requiredScope, now, stamp, stamp');
    }
  }

  /** Only what SQLite takes can have been used. */
  lemma UsedIsBindable(cr: Crypto, t: Table, jti: Json)
    requires Valid(cr, t) && JtiUsed(t, jti)
    ensures Bindable(jti)
  {
    hide Linked, Commits, DistinctIds, FromContent;
    var i :| 0 <= i < |t| && UsedBy(t[i], jti);
    assert Indexed(t[i]);
    var e := FromContent(ContentOf(t[i].record)).value;
    assert Content(e).Get("token_jti") == Some(e.tokenJti);
  }

  /**
   Which tokens the replay test turns away, on any reachable log: those from a known peer whose
   jti claim a started or completed record carries, as the same text or as the same number.
   */
  lemma ReplayVerdict(cr: Crypto, n: Node, token: string, requiredScope: string, now: int, stamp: Stamp)
    requires Valid(cr, n.log)
    requires PeekPayload(token).Some? && PeekPayload(token).value.GetText("iss").Some?
    requires PeekPayload(token).value.GetText("iss").value in n.peers && !HasEvent(n.log, stamp.eventId)
    ensures VerifyDelegation(cr, n, token, requiredScope, now, stamp).1 == Raise(TokenReplay)
            <==> JtiUsed(n.log, RawJti(token))
  {
    hide ReplayDetected, VerifyToken, Valid, JtiUsed, Apply, HasEvent, PeekPayload, Bindable;
    var iss, jti := PeekPayload(token).value.GetText("iss").value, RawJti(token);
    ReplayExact(cr, n.log, jti);
    if JtiUsed(n.log, jti) {
      UsedIsBindable(cr, n.log, jti);
      UsedIsPresent(cr, n, token);
    }
    OwnColumns("delegation.replay_attempt", jti, iss, n.id, map[], stamp.eventId, stamp.ts);
    if Bindable(jti) {
      SelfAccepted(cr, n.log, ReplayEvent(n, iss, jti, stamp), n.kp, n.id);
    }
  }

  /** A used jti is a claim the token makes: a missing one reads as null, which is never used. */
  lemma UsedIsPresent(cr: Crypto, n: Node, token: string)
    requires PeekPayload(token).Some? && JtiUsed(n.log, RawJti(token))
    ensures PeekPayload(token).value.Get("jti") == Some(RawJti(token))
  {
    hide PeekPayload;
  }

  // ---- From issuing to acceptance ----

  ghost function IssuedClaims(a: Node, to: string, scope: seq<string>, purpose: string, constraints: Option<map<string, Json>>,
                              expiresIn: int, issuedAt: int, jti: string): Claims
  {
    NewClaims(a.id, to, scope, purpose, constraints, expiresIn, Some("local://" + a.id), issuedAt, jti)
  }

  lemma IssueShape(cr: Crypto, a: Node, to: string, scope: seq<string>, purpose: string, constraints: Option<map<string, Json>>,
                   expiresIn: int, issuedAt: int, jti: string, stamp: Stamp)
    requires IssueDelegation(cr, a, to, scope, purpose, constraints, expiresIn, issuedAt, jti, stamp).Ok?
    ensures 0 < expiresIn <= MAX_TTL_SECONDS
    ensures var token := IssueDelegation(cr, a, to, scope, purpose, constraints, expiresIn, issuedAt, jti, stamp).value.1;
            token == SignCompact(cr, ToJson(IssuedClaims(a, to, scope, purpose, constraints, expiresIn, issuedAt, jti)), a.kp)
    ensures a.manifest.Some? ==> forall i | 0 <= i < |scope| :: ManifestHas(a.manifest.value, scope[i])
  {
    hide SignCompact, Apply, ManifestHas, ToJson;
  }

  lemma PeekIssued(cr: Crypto, claims: Claims, kp: KeyPair)
    ensures var payload := PeekPayload(SignCompact(cr, ToJson(claims), kp));
            payload == Some(ToJson(claims)) && payload.value.GetText("iss") == Some(claims.iss) && payload.value.Get("jti") == Some(JStr(claims.jti))
  {
    hide SignCompact, PeekPayload, Texts;
    PeekSigned(cr, ToJson(claims), kp);
  }

  /** Some execution, at any stage, runs or ran under this jti. */
  ghost predicate Begun(xs: seq<Exec>, jti: string) {
    exists e :: 0 <= e < |xs| && xs[e].claims.jti == jti
  }

  /** A row taken from a peer has a type that counts as use, and this jti. */
  ghost predicate ReceivedUse(t: Table, jti: Json) {
    exists i :: 0 <= i < |t| && !OwnRow(t[i]) && UsedBy(t[i], jti)
  }

  /**
   What makes a jti used, in every reachable state of an agent: an execution of its own begun
   under it, if it is text, or an event received from a peer that says so, which is not the
   agent's work.
   */
  lemma UsedExactly(cr: Crypto, n: Node, jti: Json)
    requires NodeValid(cr, n)
    ensures JtiUsed(n.log, jti) <==> (jti.JStr? && Begun(n.execs, jti.s)) || ReceivedUse(n.log, jti)
  {
    hide Valid, Counted, AtMostOnce, OwnRow, UsedBy, SameWork;
    if i :| 0 <= i < |n.log| && OwnRow(n.log[i]) && UsedBy(n.log[i], jti) {
      OwnUseHasExec(cr, n.log, n.execs, i, jti);
    }
    if e :| jti.JStr? && 0 <= e < |n.execs| && n.execs[e].claims.jti == jti.s {
      assert ExecFits(n.log, n.execs[e]);
      WorkUses(cr, n.log, n.execs[e].startRow, n.execs[e].claims);
    }
  }

  /** So it is after every history of an agent. */
  lemma RunUsedExactly(cr: Crypto, start: Node, steps: seq<NodeStep>, jti: Json)
    requires Fresh(start)
    ensures var n := RunNode(cr, start, steps);
            JtiUsed(n.log, jti) <==> (jti.JStr? && Begun(n.execs, jti.s)) || ReceivedUse(n.log, jti)
  {
    hide RunNode, NodeValid, JtiUsed, Begun, ReceivedUse;
    RunKeeps(cr, start, steps);
    UsedExactly(cr, RunNode(cr, start, steps), jti);
  }

  lemma OwnUseHasExec(cr: Crypto, t: Table, xs: seq<Exec>, i: nat, jti: Json)
    requires Valid(cr, t) && Matched(t, xs) && i < |t| && OwnRow(t[i]) && UsedBy(t[i], jti)
    ensures jti.JStr? && exists e :: 0 <= e < |xs| && xs[e].claims.jti == jti.s
  {
    hide OwnRow, Linked, Indexed, DistinctIds;
    assert Commits(t[i]);
    if OwnStarted(t[i]) {
      var e :| 0 <= e < |xs| && xs[e].startRow == i;
      assert ExecFits(t, xs[e]);
    } else {
      assert OwnCompletion(t[i]);
      var e :| 0 <= e < |xs| && xs[e].phase == Finished(i);
      assert ExecFits(t, xs[e]);
    }
  }

  /**
   A token from `issue_delegation` under whose jti the agent it names has begun no execution,
   where that agent holds the manifest used at issuing, is accepted for a covered scope exactly
   inside its window and if no event received from a peer has used up the jti; and then it
   returns exactly the issued claims.
   */
  lemma IssuedAccepted(cr: Crypto, a: Node, to: string, scope: seq<string>, purpose: string, constraints: Option<map<string, Json>>,
                       expiresIn: int, issuedAt: int, jti: string, s1: Stamp,
                       b: Node, requiredScope: string, now: int, s2: Stamp)
    requires IdealSignatures(cr) && NodeValid(cr, b)
    requires a.manifest.Some?
    requires IssueDelegation(cr, a, to, scope, purpose, constraints, expiresIn, issuedAt, jti, s1).Ok?
    requires a.id in b.peers && b.peers[a.id].publicKey == a.kp.Public(cr) && b.peers[a.id].manifest == a.manifest.value
    requires to == b.id && !Begun(b.execs, jti) && ScopeCovers(scope, requiredScope)
    ensures var token := IssueDelegation(cr, a, to, scope, purpose, constraints, expiresIn, issuedAt, jti, s1).value.1;
            var r := VerifyDelegation(cr, b, token, requiredScope, now, s2).1;
            && (r.Ok? <==> issuedAt <= now < issuedAt + expiresIn && !ReceivedUse(b.log, JStr(jti)))
            && (r.Ok? ==> r.value == IssuedClaims(a, to, scope, purpose, constraints, expiresIn, issuedAt, jti))
  {
    hide IdealSignatures, NodeValid, ScopeCovers, ManifestHas, VerifyToken, SignCompact, IssueDelegation, ToJson, JtiUsed,
         Begun, ReceivedUse, VerifyDelegation;
    var claims := IssuedClaims(a, to, scope, purpose, constraints, expiresIn, issuedAt, jti);
    IssueShape(cr, a, to, scope, purpose, constraints, expiresIn, issuedAt, jti, s1);
    UsedExactly(cr, b, JStr(jti));
    PresentedVerdict(cr, claims, a.kp, b, requiredScope, now, s2);
    IssueVerify(cr, a.kp, claims, expiresIn, b.id, requiredScope, a.manifest.value, now);
  }

  /** The verdict on a signed token whose named issuer is known: a replay if its jti is used, else the token's own. */
  lemma PresentedVerdict(cr: Crypto, claims: Claims, kp: KeyPair, b: Node, requiredScope: string, now: int, stamp: Stamp)
    requires NodeValid(cr, b)
    ensures var token := SignCompact(cr, ToJson(claims), kp);
            var r := VerifyDelegation(cr, b, token, requiredScope, now, stamp).1;
            && RawJti(token) == JStr(claims.jti)
            && (r.Ok? ==> claims.iss in b.peers && !JtiUsed(b.log, JStr(claims.jti)))
            && (claims.iss in b.peers && !JtiUsed(b.log, JStr(claims.jti)) ==>
                  var v := VerifyToken(cr, token, b.peers[claims.iss].publicKey, b.id, requiredScope, b.peers[claims.iss].manifest, now);
                  r == if v.Ok? then Ok(v.value) else Raise(Token(v.error)))
  {
    hide Matched, Counted, AtMostOnce, Valid, JtiUsed, VerifyToken, ReplayDetected, SignCompact, Apply, PeekPayload;
    PeekIssued(cr, claims, kp);
    ReplayExact(cr, b.log, JStr(claims.jti));
  }
}
