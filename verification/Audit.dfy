/** The read-only offline audit: every frozen claim and every stored payout
    intent is recomputed, by code written independently of the guards. */
module Audit {
  import opened Bytes
  import opened Wrappers
  import opened SignedMessages
  import PayoutIntent
  import D = DepositStore
  import DepositDb
  import DI = DepositInvariants
  import DR = DepositRuns
  import W = WithdrawalStore
  import WithdrawalDb
  import WI = WithdrawalInvariants
  import WR = WithdrawalRuns
  import WC = WithdrawalContracts

  datatype Finding =
    | DatabaseCorrupt(output: string)
    | ClaimSelfInconsistent(id: nat)
    | ClaimRecomputeMismatch(id: nat)
    | PayoutSelfInconsistent(index: i64)
    | PayoutRecomputeMismatch(index: i64)
    | PayoutInputsMissing(index: i64)
    | PayoutChangeAddressUndecodable(index: i64)

  /** A deposit joined with its claim artifact. */
  datatype StoredClaim = StoredClaim(id: nat, row: D.Deposit, artifact: D.Artifact)

  /** A payout joined with its withdrawal request. */
  datatype StoredPayout = StoredPayout(index: i64, request: W.Withdrawal, payout: W.Payout)

  function CheckClaim(sha: seq<byte> -> Hash32, c: StoredClaim): Option<Finding> {
    var d, a := c.row, c.artifact;
    if sha(a.message) != a.hash then Some(ClaimSelfInconsistent(c.id))
    else
      var recomputed := DepositClaimMessage(
        Claim(a.version, a.program, a.epoch, d.txid, d.vout, d.amount, d.recipient, a.mint));
      if recomputed != a.message then Some(ClaimRecomputeMismatch(c.id)) else None
  }

  function CheckPayout(env: W.Env, p: StoredPayout, inputs: seq<PayoutIntent.Coin>): Option<Finding> {
    var t, d := p.payout.terms, p.payout.designation;
    if env.sha(d.intent) != d.commitment then Some(PayoutSelfInconsistent(p.index))
    else if inputs == [] then Some(PayoutInputsMissing(p.index))
    else
      var change := if t.changeAddress == None then Some(ZERO20) else env.decodeAddress(t.changeAddress.value);
      if change == None then Some(PayoutChangeAddressUndecodable(p.index)) else
        var recomputed := PayoutIntent.Encode(PayoutIntent.Intent(
          p.request.version, p.index, t.vault, p.request.hash160, t.payout, t.fee, t.change, change.value,
          d.attempt, d.quorum, inputs));
        if recomputed != d.intent then Some(PayoutRecomputeMismatch(p.index)) else None
  }

  function CheckIntegrity(output: string): Option<Finding> { if output == "ok" then None else Some(DatabaseCorrupt(output)) }

  // ------------------------------------------------- agreement with the guards

  /** The audit passes a claim exactly when the signing guard would hand its
      message out, and reports exactly the disagreement the guard halts on. */
  lemma ClaimAuditIsTheGuard(sha: seq<byte> -> Hash32, s: D.State, id: nat, at: int)
    requires id < |s.deposits| && id in s.artifacts
    ensures var r := D.VerifyAndLoadClaim(sha, s, id, at);
            match CheckClaim(sha, StoredClaim(id, s.deposits[id], s.artifacts[id]))
            case None => r.1.Ok? && r.0 == s
            case Some(ClaimSelfInconsistent(k)) => k == id && r.1.Err? && HaltedFor(r.0, id, "claim_artifact_self_inconsistent")
            case Some(ClaimRecomputeMismatch(k)) => k == id && r.1.Err? && HaltedFor(r.0, id, "claim_message_recomputed_mismatch")
            case Some(_) => false
  {
  }

  predicate HaltedFor(s: D.State, id: nat, reason: string) {
    id < |s.deposits| && s.deposits[id].state.IntegrityHalted? && s.deposits[id].failure == Some(reason)
  }

  /** What the audit asks of a payout row: at least one committed input and the
      canonical intent of the row it sits in. */
  lemma PayoutAuditExactly(env: W.Env, w: W.Withdrawal, p: W.Payout, i: i64)
    ensures CheckPayout(env, StoredPayout(i, w, p), p.terms.inputs) == None
            <==> p.terms.inputs != [] && WR.Canonical(env, w, i, p.terms, p.designation)
  {
  }

  /** What each finding about a payout row says is wrong with it. */
  lemma PayoutFindingExactly(env: W.Env, i: i64, w: W.Withdrawal, p: W.Payout)
    ensures var finding := CheckPayout(env, StoredPayout(i, w, p), p.terms.inputs);
            var broken := env.sha(p.designation.intent) != p.designation.commitment;
            var change := W.ChangeHash(env, p.terms);
            && (finding == Some(PayoutSelfInconsistent(i)) <==> broken)
            && (finding == Some(PayoutInputsMissing(i)) <==> !broken && p.terms.inputs == [])
            && (finding == Some(PayoutChangeAddressUndecodable(i)) <==> !broken && p.terms.inputs != [] && change == None)
            && (finding == Some(PayoutRecomputeMismatch(i)) <==>
                  && !broken && p.terms.inputs != [] && change.Some?
                  && p.designation.intent != PayoutIntent.Encode(W.IntentOf(w, i, p.terms, change.value, p.designation)))
  {
    hide PayoutIntent.Encode;
  }

  /** The guard releases a payout exactly when the audit passes it, it is
      unsent, its coins still back it, and it pays what was burned. */
  lemma GuardRefinesAudit(env: W.Env, s: W.State, i: i64, at: i64)
    requires i in s.withdrawals && i in s.payouts
    ensures var w, p := s.withdrawals[i], s.payouts[i];
            W.VerifyAndLoad(env, s, i, at).1.Ok? <==>
              && CheckPayout(env, StoredPayout(i, w, p), p.terms.inputs) == None
              && WR.Unsent(p) && WR.Backed(s, i, p.terms.inputs) && p.terms.payout == w.amount
  {
    WR.GuardReleasesExactly(env, s, i, at);
    PayoutAuditExactly(env, s.withdrawals[i], s.payouts[i], i);
    hide CheckPayout, WR.Canonical, W.VerifyAndLoad;
  }

  // ------------------------------------------------------------ the whole walk

  function Listed<T>(finding: Option<T>): seq<T> { if finding == None then [] else [finding.value] }

  /** The deposits below `n` that have an artifact, in id order. */
  function ClaimsBelow(s: D.State, n: nat): seq<StoredClaim>
    requires n <= |s.deposits|
  {
    if n == 0 then [] else
      ClaimsBelow(s, n - 1)
      + if n - 1 in s.artifacts then [StoredClaim(n - 1, s.deposits[n - 1], s.artifacts[n - 1])] else []
  }

  function ClaimFindings(sha: seq<byte> -> Hash32, claims: seq<StoredClaim>): seq<Finding> {
    if claims == [] then [] else
      ClaimFindings(sha, claims[..|claims| - 1]) + Listed(CheckClaim(sha, claims[|claims| - 1]))
  }

  function PayoutFindings(env: W.Env, rows: seq<StoredPayout>): seq<Finding> {
    if rows == [] then [] else
      var last := rows[|rows| - 1];
      PayoutFindings(env, rows[..|rows| - 1]) + Listed(CheckPayout(env, last, last.payout.terms.inputs))
  }

  /** The join of payouts and requests, in index order, each row once. */
  ghost predicate AllPayouts(s: W.State, rows: seq<StoredPayout>) {
    && (forall k :: 0 <= k < |rows| ==> IsRow(s, rows[k]))
    && (forall j, k :: 0 <= j < k < |rows| ==> rows[j].index < rows[k].index)
    && (forall i :: i in s.payouts && i in s.withdrawals ==> Includes(rows, s, i))
  }

  predicate Includes(rows: seq<StoredPayout>, s: W.State, i: i64)
    requires i in s.payouts && i in s.withdrawals
  {
    exists k :: 0 <= k < |rows| && rows[k] == StoredPayout(i, s.withdrawals[i], s.payouts[i])
  }

  predicate IsRow(s: W.State, r: StoredPayout) {
    r.index in s.payouts && r.index in s.withdrawals && r == StoredPayout(r.index, s.withdrawals[r.index], s.payouts[r.index])
  }

  datatype Report = Report(integrity: string, claimsChecked: nat, payoutsChecked: nat, findings: seq<Finding>)

  lemma SmallestIndex(rest: set<i64>) returns (i: i64)
    requires rest != {}
    ensures i in rest && forall j :: j in rest ==> i <= j
    decreases |rest|
  {
    i :| i in rest;
    if rest != {i} {
      var least := SmallestIndex(rest - {i});
      assert forall j :: j in rest ==> j == i || j in rest - {i};
      if least < i { i := least; }
    }
  }

  method AllPayoutIntents(db: WithdrawalDb.Db) returns (rows: seq<StoredPayout>)
    ensures AllPayouts(db.Contents(), rows)
  {
    hide Includes;
    var rest := db.payouts.Keys * db.withdrawals.Keys;
    rows := [];
    while rest != {}
      invariant forall k :: 0 <= k < |rows| ==> IsRow(db.Contents(), rows[k])
      invariant forall j, k :: 0 <= j < k < |rows| ==> rows[j].index < rows[k].index
      invariant forall k, i :: 0 <= k < |rows| && i in rest ==> rows[k].index < i
      invariant rest <= db.payouts.Keys * db.withdrawals.Keys
      invariant forall i :: i in db.payouts && i in db.withdrawals && i !in rest ==> Includes(rows, db.Contents(), i)
      decreases |rest|
    {
      ghost var least := SmallestIndex(rest);
      var i :| i in rest && forall j :: j in rest ==> i <= j;
      ghost var before := rows;
      rows := rows + [StoredPayout(i, db.withdrawals[i], db.payouts[i])];
      rest := rest - {i};
      IncludesMore(before, db.Contents(), i);
    }
  }

  lemma IncludesMore(rows: seq<StoredPayout>, s: W.State, i: i64)
    requires i in s.payouts && i in s.withdrawals
    ensures var more := rows + [StoredPayout(i, s.withdrawals[i], s.payouts[i])];
            && Includes(more, s, i)
            && forall x :: x in s.payouts && x in s.withdrawals && Includes(rows, s, x) ==> Includes(more, s, x)
  {
    var more := rows + [StoredPayout(i, s.withdrawals[i], s.payouts[i])];
    assert more[|rows|] == StoredPayout(i, s.withdrawals[i], s.payouts[i]);
    forall x | x in s.payouts && x in s.withdrawals && Includes(rows, s, x) ensures Includes(more, s, x) {
      var k :| 0 <= k < |rows| && rows[k] == StoredPayout(x, s.withdrawals[x], s.payouts[x]);
      assert more[k] == rows[k];
    }
  }

  /** The deposits that have an artifact, each once with it, in id order. */
  ghost predicate AllClaims(s: D.State, claims: seq<StoredClaim>, n: nat) {
    && (forall k :: 0 <= k < |claims| ==>
          && claims[k].id < n && claims[k].id < |s.deposits| && claims[k].id in s.artifacts
          && claims[k].row == s.deposits[claims[k].id] && claims[k].artifact == s.artifacts[claims[k].id])
    && (forall j, k :: 0 <= j < k < |claims| ==> claims[j].id < claims[k].id)
    && (forall id :: 0 <= id < n && id in s.artifacts ==> ListsClaim(claims, id))
  }

  predicate ListsClaim(claims: seq<StoredClaim>, id: nat) { exists k :: 0 <= k < |claims| && claims[k].id == id }

  lemma NoClaimsYet(s: D.State)
    ensures AllClaims(s, [], 0)
  {
  }

  lemma NoMoreClaims(s: D.State, claims: seq<StoredClaim>, n: nat)
    requires AllClaims(s, claims, n) && n !in s.artifacts
    ensures AllClaims(s, claims, n + 1)
  {
    hide ListsClaim;
  }

  lemma OneMoreClaim(s: D.State, claims: seq<StoredClaim>, n: nat)
    requires AllClaims(s, claims, n) && n < |s.deposits| && n in s.artifacts
    ensures AllClaims(s, claims + [StoredClaim(n, s.deposits[n], s.artifacts[n])], n + 1)
  {
    var all := claims + [StoredClaim(n, s.deposits[n], s.artifacts[n])];
    forall id | 0 <= id < n + 1 && id in s.artifacts ensures ListsClaim(all, id) {
      if id == n {
        assert all[|claims|].id == id;
      } else {
        StillListed(claims, all, id);
      }
    }
    hide ListsClaim;
  }

  lemma StillListed(claims: seq<StoredClaim>, all: seq<StoredClaim>, id: nat)
    requires ListsClaim(claims, id) && claims <= all
    ensures ListsClaim(all, id)
  {
    var k :| 0 <= k < |claims| && claims[k].id == id;
    assert all[k].id == id;
  }

  lemma {:induction false} ClaimsBelowExactly(s: D.State, n: nat)
    requires n <= |s.deposits|
    ensures AllClaims(s, ClaimsBelow(s, n), n)
  {
    hide AllClaims;
    if n == 0 {
      NoClaimsYet(s);
    } else {
      ClaimsBelowExactly(s, n - 1);
      if n - 1 in s.artifacts {
        OneMoreClaim(s, ClaimsBelow(s, n - 1), n - 1);
      } else {
        NoMoreClaims(s, ClaimsBelow(s, n - 1), n - 1);
        assert ClaimsBelow(s, n) == ClaimsBelow(s, n - 1);
      }
    }
  }

  method AllClaimArtifacts(db: DepositDb.Db) returns (claims: seq<StoredClaim>)
    ensures claims == ClaimsBelow(db.Contents(), |db.deposits|)
    ensures AllClaims(db.Contents(), claims, |db.deposits|)
  {
    ClaimsBelowExactly(db.Contents(), |db.deposits|);
    claims := [];
    for id := 0 to |db.deposits|
      invariant claims == ClaimsBelow(db.Contents(), id)
    {
      if id in db.artifacts {
        claims := claims + [StoredClaim(id, db.deposits[id], db.artifacts[id])];
      }
    }
  }

  /** A finding is reported exactly when the walk's check of some row finds it. */
  lemma {:induction false} ClaimFindingsExactly(sha: seq<byte> -> Hash32, claims: seq<StoredClaim>, f: Finding)
    ensures f in ClaimFindings(sha, claims) <==> exists k :: 0 <= k < |claims| && CheckClaim(sha, claims[k]) == Some(f)
  {
    hide CheckClaim, ClaimFindings;
    if claims == [] {
      NoneFound(sha);
    } else {
      var n := |claims| - 1;
      ClaimFindingsExactly(sha, claims[..n], f);
      assert claims == claims[..n] + [claims[n]];
      OneMoreFinding(sha, claims[..n], claims[n]);
      if k :| 0 <= k < n && CheckClaim(sha, claims[k]) == Some(f) {
        assert claims[..n][k] == claims[k];
      }
    }
  }

  lemma {:induction false} PayoutFindingsExactly(env: W.Env, rows: seq<StoredPayout>, f: Finding)
    ensures f in PayoutFindings(env, rows) <==>
              exists k :: 0 <= k < |rows| && CheckPayout(env, rows[k], rows[k].payout.terms.inputs) == Some(f)
  {
    hide CheckPayout;
    if rows != [] {
      var n := |rows| - 1;
      PayoutFindingsExactly(env, rows[..n], f);
      assert rows == rows[..n] + [rows[n]];
      OneMorePayoutFinding(env, rows[..n], rows[n]);
      if k :| 0 <= k < n && CheckPayout(env, rows[k], rows[k].payout.terms.inputs) == Some(f) {
        assert rows[..n][k] == rows[k];
      }
    }
  }

  /** One walk over both stores; nothing is written. The report counts every
      row looked at, and is empty exactly when the database is structurally
      sound, every frozen claim is intact and every payout row canonical. */
  method AuditAll(deposits: DepositDb.Db, withdrawals: WithdrawalDb.Db, integrity: string) returns (report: Report, ghost rows: seq<StoredPayout>)
    requires withdrawals.env.sha == deposits.sha
    ensures report.integrity == integrity
    ensures report.claimsChecked == |ClaimsBelow(deposits.Contents(), |deposits.deposits|)|
    ensures report.payoutsChecked == |withdrawals.payouts.Keys * withdrawals.withdrawals.Keys|
    ensures report.findings == [] <==>
              integrity == "ok" && ClaimsPass(deposits.sha, deposits.Contents()) && PayoutsPass(withdrawals.env, withdrawals.Contents())
    ensures AllPayouts(withdrawals.Contents(), rows)
    ensures report.findings ==
              Listed(CheckIntegrity(integrity))
              + ClaimFindings(deposits.sha, ClaimsBelow(deposits.Contents(), |deposits.deposits|))
              + PayoutFindings(withdrawals.env, rows)
  {
    hide CheckClaim, CheckPayout, AllPayouts, AllClaims, PayoutsPass, ClaimsPass, ClaimsBelow, ClaimFindings, PayoutFindings, Listed;
    var env := withdrawals.env;
    var findings := Listed(CheckIntegrity(integrity));
    ghost var first := findings;
    var claims := AllClaimArtifacts(deposits);
    NoneFound(deposits.sha);
    NoPayoutsFound(env);
    for k := 0 to |claims|
      invariant findings == first + ClaimFindings(deposits.sha, claims[..k])
    {
      findings := findings + Listed(CheckClaim(deposits.sha, claims[k]));
      assert claims[..k + 1] == claims[..k] + [claims[k]];
      OneMoreFinding(deposits.sha, claims[..k], claims[k]);
    }
    assert claims[..|claims|] == claims;
    ghost var second := findings;
    var payouts := AllPayoutIntents(withdrawals);
    rows := payouts;
    for k := 0 to |payouts|
      invariant findings == second + PayoutFindings(env, payouts[..k])
    {
      findings := findings + Listed(CheckPayout(env, payouts[k], payouts[k].payout.terms.inputs));
      assert payouts[..k + 1] == payouts[..k] + [payouts[k]];
      OneMorePayoutFinding(env, payouts[..k], payouts[k]);
    }
    assert payouts[..|payouts|] == payouts;
    IntegrityExactly(integrity);
    PassExactly(deposits.sha, deposits.Contents());
    RowCount(withdrawals.Contents(), rows);
    NoClaimFindings(deposits.sha, deposits.Contents(), |deposits.deposits|);
    NoPayoutFindings(env, withdrawals.Contents(), rows);
    report := Report(integrity, |claims|, |payouts|, findings);
  }

  /** Every frozen claim is intact. */
  ghost predicate ClaimsPass(sha: seq<byte> -> Hash32, s: D.State) {
    IntactBelow(sha, s, |s.deposits|)
  }

  /** Every payout row has inputs and carries its own canonical intent. */
  ghost predicate PayoutsPass(env: W.Env, s: W.State) {
    forall i :: i in s.payouts && i in s.withdrawals ==>
      && s.payouts[i].terms.inputs != []
      && WR.Canonical(env, s.withdrawals[i], i, s.payouts[i].terms, s.payouts[i].designation)
  }

  lemma PassesExactly(sha: seq<byte> -> Hash32, c: StoredClaim)
    ensures CheckClaim(sha, c) == None <==> D.ClaimIntact(sha, c.row, c.artifact)
  {
  }

  lemma OneMoreFinding(sha: seq<byte> -> Hash32, claims: seq<StoredClaim>, c: StoredClaim)
    ensures ClaimFindings(sha, claims + [c]) == ClaimFindings(sha, claims) + Listed(CheckClaim(sha, c))
  {
    assert (claims + [c])[..|claims|] == claims;
  }

  ghost predicate IntactBelow(sha: seq<byte> -> Hash32, s: D.State, n: nat)
    requires n <= |s.deposits|
  {
    forall id :: 0 <= id < n && id in s.artifacts ==> D.ClaimIntact(sha, s.deposits[id], s.artifacts[id])
  }

  lemma OneMoreIntact(sha: seq<byte> -> Hash32, s: D.State, n: nat)
    requires n < |s.deposits|
    ensures IntactBelow(sha, s, n + 1) <==>
              IntactBelow(sha, s, n) && (n in s.artifacts ==> D.ClaimIntact(sha, s.deposits[n], s.artifacts[n]))
  {
    hide D.ClaimIntact;
  }

  lemma {:induction false} NoClaimFindings(sha: seq<byte> -> Hash32, s: D.State, n: nat)
    requires n <= |s.deposits|
    ensures ClaimFindings(sha, ClaimsBelow(s, n)) == [] <==> IntactBelow(sha, s, n)
  {
    hide CheckClaim, D.ClaimIntact, ClaimFindings;
    if n == 0 {
      NoneFound(sha);
    } else {
      NoClaimFindings(sha, s, n - 1);
      hide IntactBelow;
      OneMoreIntact(sha, s, n - 1);
      if n - 1 in s.artifacts {
        var c := StoredClaim(n - 1, s.deposits[n - 1], s.artifacts[n - 1]);
        PassesExactly(sha, c);
        OneMoreFinding(sha, ClaimsBelow(s, n - 1), c);
        assert ClaimsBelow(s, n) == ClaimsBelow(s, n - 1) + [c];
      } else {
        assert ClaimsBelow(s, n) == ClaimsBelow(s, n - 1);
      }
    }
  }

  lemma IntegrityExactly(integrity: string)
    ensures Listed(CheckIntegrity(integrity)) == [] <==> integrity == "ok"
  {
  }

  lemma PassExactly(sha: seq<byte> -> Hash32, s: D.State)
    ensures ClaimsPass(sha, s) <==> IntactBelow(sha, s, |s.deposits|)
  {
  }

  lemma OneMorePayoutFinding(env: W.Env, rows: seq<StoredPayout>, r: StoredPayout)
    ensures PayoutFindings(env, rows + [r]) == PayoutFindings(env, rows) + Listed(CheckPayout(env, r, r.payout.terms.inputs))
  {
    assert (rows + [r])[..|rows|] == rows;
  }

  lemma NoneFound(sha: seq<byte> -> Hash32)
    ensures ClaimFindings(sha, []) == []
  {
  }

  lemma NoPayoutsFound(env: W.Env)
    ensures PayoutFindings(env, []) == []
  {
  }

  lemma {:induction false} NoFindingIn(env: W.Env, rows: seq<StoredPayout>)
    ensures PayoutFindings(env, rows) == [] <==>
              forall k :: 0 <= k < |rows| ==> CheckPayout(env, rows[k], rows[k].payout.terms.inputs) == None
  {
    hide CheckPayout;
    if rows != [] {
      NoFindingIn(env, rows[..|rows| - 1]);
    }
  }

  lemma NoPayoutFindings(env: W.Env, s: W.State, rows: seq<StoredPayout>)
    requires AllPayouts(s, rows)
    ensures PayoutFindings(env, rows) == [] <==> PayoutsPass(env, s)
  {
    hide CheckPayout, WR.Canonical, PayoutFindings;
    NoFindingIn(env, rows);
    forall k | 0 <= k < |rows|
      ensures CheckPayout(env, rows[k], rows[k].payout.terms.inputs) == None <==>
                rows[k].payout.terms.inputs != []
                && WR.Canonical(env, rows[k].request, rows[k].index, rows[k].payout.terms, rows[k].payout.designation)
    {
      assert rows[k] == StoredPayout(rows[k].index, rows[k].request, rows[k].payout);
      PayoutAuditExactly(env, rows[k].request, rows[k].payout, rows[k].index);
    }
    if PayoutFindings(env, rows) == [] {
      forall i | i in s.payouts && i in s.withdrawals
        ensures s.payouts[i].terms.inputs != []
        ensures WR.Canonical(env, s.withdrawals[i], i, s.payouts[i].terms, s.payouts[i].designation)
      {
        var k :| 0 <= k < |rows| && rows[k] == StoredPayout(i, s.withdrawals[i], s.payouts[i]);
      }
    } else {
      var k :| 0 <= k < |rows| && CheckPayout(env, rows[k], rows[k].payout.terms.inputs) != None;
      assert IsRow(s, rows[k]);
    }
  }

  lemma {:induction false} RowCount(s: W.State, rows: seq<StoredPayout>)
    requires AllPayouts(s, rows)
    ensures |rows| == |s.payouts.Keys * s.withdrawals.Keys|
  {
    var indices := IndicesOf(rows);
    forall i ensures i in indices <==> i in s.payouts.Keys * s.withdrawals.Keys {
      if i in indices {
        var k :| 0 <= k < |rows| && rows[k].index == i;
        assert IsRow(s, rows[k]);
      }
    }
    assert indices == s.payouts.Keys * s.withdrawals.Keys;
  }

  lemma {:induction false} IndicesOf(rows: seq<StoredPayout>) returns (indices: set<i64>)
    requires forall j, k :: 0 <= j < k < |rows| ==> rows[j].index < rows[k].index
    ensures |indices| == |rows| && forall i :: i in indices <==> exists k :: 0 <= k < |rows| && rows[k].index == i
  {
    if rows == [] {
      indices := {};
    } else {
      var last := |rows| - 1;
      var rest := IndicesOf(rows[..last]);
      indices := rest + {rows[last].index};
      assert forall k :: 0 <= k < last ==> rows[..last][k] == rows[k];
    }
  }

  /** A clean audit of the claims is exactly every claim being signable. */
  lemma CleanClaimsAreSignable(sha: seq<byte> -> Hash32, s: D.State, at: int)
    ensures ClaimsPass(sha, s) <==>
              forall id :: 0 <= id < |s.deposits| && id in s.artifacts ==> D.VerifyAndLoadClaim(sha, s, id, at).1.Ok?
  {
    hide CheckClaim, D.VerifyAndLoadClaim, D.ClaimIntact;
    forall id | 0 <= id < |s.deposits| && id in s.artifacts
      ensures D.VerifyAndLoadClaim(sha, s, id, at).1.Ok? <==> D.ClaimIntact(sha, s.deposits[id], s.artifacts[id])
    {
      ClaimAuditIsTheGuard(sha, s, id, at);
      PassesExactly(sha, StoredClaim(id, s.deposits[id], s.artifacts[id]));
    }
  }

  /** After a clean audit of the payouts the guard never finds a commitment
      that does not match: all that can still stop a payout is that it was
      sent, its coins, or an amount other than the burned one. */
  lemma CleanPayoutsOnlyStopOutside(env: W.Env, s: W.State, i: i64, at: i64)
    requires PayoutsPass(env, s) && i in s.payouts && i in s.withdrawals
    ensures W.VerifyAndLoad(env, s, i, at).1.Ok? <==>
              && WR.Unsent(s.payouts[i]) && WR.Backed(s, i, s.payouts[i].terms.inputs)
              && s.payouts[i].terms.payout == s.withdrawals[i].amount
  {
    GuardRefinesAudit(env, s, i, at);
    PayoutAuditExactly(env, s.withdrawals[i], s.payouts[i], i);
    hide CheckPayout, WR.Canonical, W.VerifyAndLoad, WR.Backed;
  }

  /** The audit of any state the relayer can reach, by any run of either store
      that creates and reassigns payouts canonically, reports nothing. */
  lemma ReachableIsClean(w: DR.World, actions: seq<DR.Action>, env: W.Env, ops: seq<W.Op>)
    requires DR.EnabledRun(w, D.EMPTY, actions) && WC.RunStoresCanonical(env, W.EMPTY, ops)
    ensures ClaimsPass(w.sha, DR.Run(w, D.EMPTY, actions)) && PayoutsPass(env, W.Run(env, W.EMPTY, ops))
  {
    hide DR.Run, W.Run, DR.EnabledRun, WC.RunStoresCanonical, WR.Canonical, D.ClaimIntact, DI.Inv, WI.Consistent;
    EmptyIsSound(w, env);
    DR.RunKeepsClaims(w, D.EMPTY, actions);
    WC.RunKeepsCanonical(env, W.EMPTY, ops);
  }

  lemma EmptyIsSound(w: DR.World, env: W.Env)
    ensures DI.Inv(w.tree, w.scan, D.EMPTY) && DR.ClaimsIntact(w, D.EMPTY)
    ensures WI.Consistent(W.EMPTY) && WC.AllCanonical(env, W.EMPTY)
  {
  }
}
