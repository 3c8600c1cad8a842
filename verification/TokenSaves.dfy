/** The saves of the token store, apart from its calls. A call changes the tables under the lock and then owes a save;
    the save takes its snapshot in a later step and writes the file in another one, without a lock in between, so
    saves of different calls overlap and an older snapshot may land last. */
module TokenSaves {
  import opened Text
  import opened TokenStore

  // ---------------------------------------------------------------------------
  // Calls, snapshots and writes
  // ---------------------------------------------------------------------------

  /** `seen` records how many facts of the ledger the snapshot shows. */
  datatype Stage = Owed | Taken(snapshot: Persisted, seen: nat)

  /** The last three fields only record: the facts the running process knows of, how many of them the file shows, and
      the clocks. */
  datatype World = World(tables: Tables, saves: map<nat, Stage>, begun: nat, ledger: Ledger, shown: nat, clocks: Clocks)

  datatype Action = Call(op: Op) | Snapshot(save: nat) | Write(save: nat, lands: bool)

  const NEW := World(FRESH_INSTALL, map[], 0, [], 0, Clocks(0, 0))

  predicate Owes(t: Tables, op: Op) {
    op.Revoke? || Exec(t, op).1.Pair? || Exec(t, op).1.Access?
  }

  /** A restart drops the saves on their way and forgets what the file does not show. */
  function CallStep(w: World, op: Op): World
    requires w.shown <= |w.ledger|
  {
    if op.Restart? then
      w.(tables := Reload(w.tables), saves := map[], ledger := w.ledger[..w.shown] + [Rebooted],
         clocks := After(w.clocks, op))
    else
      w.(tables := Exec(w.tables, op).0.(file := w.tables.file), ledger := SpecExec(w.ledger, op).0,
         clocks := After(w.clocks, op),
         saves := if Owes(w.tables, op) then w.saves[w.begun := Owed] else w.saves,
         begun := if Owes(w.tables, op) then w.begun + 1 else w.begun)
  }

  predicate SavesWithin(saves: map<nat, Stage>, ledger: Ledger) {
    forall k :: k in saves && saves[k].Taken? ==> saves[k].seen <= |ledger|
  }

  predicate WithinLedger(w: World) {
    w.shown <= |w.ledger| && SavesWithin(w.saves, w.ledger)
  }

  function Step(w: World, a: Action): (w': World)
    requires WithinLedger(w)
    ensures WithinLedger(w')
  {
    match a
    case Call(op) =>
      LedgerGrows(w.ledger, op);
      CallStep(w, op)
    case Snapshot(k) =>
      if k in w.saves && w.saves[k].Owed?
      then w.(saves := w.saves[k := Taken(Persisted(w.tables.refresh, w.tables.access), |w.ledger|)])
      else w
    case Write(k, lands) =>
      if k !in w.saves || w.saves[k].Owed? then w
      else
        var w' := w.(saves := Without(w.saves, k));
        if lands then w'.(tables := w.tables.(file := Some(w.saves[k].snapshot)), shown := w.saves[k].seen) else w'
  }

  function Run(actions: seq<Action>): (w: World)
    ensures WithinLedger(w)
  {
    if actions == [] then NEW else Step(Run(actions[..|actions| - 1]), actions[|actions| - 1])
  }

  lemma LedgerGrows(l: Ledger, op: Op)
    ensures l <= SpecExec(l, op).0
  {
  }

  predicate WellTimed(actions: seq<Action>) {
    actions == [] ||
    (WellTimed(actions[..|actions| - 1]) &&
     (actions[|actions| - 1].Call? ==> Ticks(Run(actions[..|actions| - 1]).clocks, actions[|actions| - 1].op)))
  }

  // ---------------------------------------------------------------------------
  // Refinement: a ledger that forgets, at a restart, exactly what the file does not show
  // ---------------------------------------------------------------------------

  /** The saved tables are those of the first n facts, except for entries that have expired. */
  ghost predicate Shows(p: Persisted, l: Ledger, n: nat, wall: nat)
    requires n <= |l|
  {
    RefreshAgrees(p.refresh, l[..n]) && AccessTableAgrees(p.access, l[..n], wall)
  }

  ghost predicate SavesShow(saves: map<nat, Stage>, l: Ledger, wall: nat)
    requires SavesWithin(saves, l)
  {
    forall k :: k in saves && saves[k].Taken? ==> Shows(saves[k].snapshot, l, saves[k].seen, wall)
  }

  ghost predicate Inv(w: World) {
    && WithinLedger(w)
    && Refines(Save(w.tables), w.ledger, w.clocks)
    && Shows(OnDisk(w.tables.file), w.ledger, w.shown, w.clocks.wall)
    && SavesShow(w.saves, w.ledger, w.clocks.wall)
  }

  lemma StillShows(p: Persisted, l: Ledger, l': Ledger, n: nat, wall: nat, later: nat)
    requires n <= |l| && l <= l' && wall <= later && Shows(p, l, n, wall)
    ensures Shows(p, l', n, later)
  {
    assert l'[..n] == l[..n];
    TimePasses(p.access, l[..n], wall, later);
  }

  /** What a call does to memory does not depend on the file. */
  lemma MemoryIgnoresFile(t: Tables, op: Op)
    requires !op.Restart?
    ensures Exec(Save(t), op).1 == Exec(t, op).1
    ensures Save(Exec(t, op).0.(file := t.file)) == Save(Exec(Save(t), op).0)
  {
  }

  lemma SavesStillShow(saves: map<nat, Stage>, l: Ledger, l': Ledger, wall: nat, later: nat)
    requires SavesWithin(saves, l) && SavesShow(saves, l, wall) && l <= l' && wall <= later
    ensures SavesWithin(saves, l') && SavesShow(saves, l', later)
  {
    forall k | k in saves && saves[k].Taken?
      ensures Shows(saves[k].snapshot, l', saves[k].seen, later)
    {
      StillShows(saves[k].snapshot, l, l', saves[k].seen, wall, later);
    }
  }

  lemma CallRefines(w: World, op: Op)
    requires Inv(w) && !op.Restart? && Ticks(w.clocks, op)
    ensures Exec(w.tables, op).1 == SpecExec(w.ledger, op).1
    ensures Inv(CallStep(w, op))
  {
    var w' := CallStep(w, op);
    LedgerGrows(w.ledger, op);
    MemoryIgnoresFile(w.tables, op);
    StepRefines(Save(w.tables), w.ledger, w.clocks, op);
    assert w.clocks.wall <= w'.clocks.wall;
    StillShows(OnDisk(w.tables.file), w.ledger, w'.ledger, w.shown, w.clocks.wall, w'.clocks.wall);
    SavesStillShow(w.saves, w.ledger, w'.ledger, w.clocks.wall, w'.clocks.wall);
    assert SavesShow(w'.saves, w'.ledger, w'.clocks.wall);
  }

  lemma RestartForgets(w: World)
    requires Inv(w)
    ensures Inv(CallStep(w, Restart))
  {
    var d, l := OnDisk(w.tables.file), w.ledger[..w.shown];
    var t := w.tables.(refresh := d.refresh, access := d.access);
    CodeFactKeepsTokens(t, l, w.clocks.wall, Rebooted);
    OneMore(l, Rebooted);
  }

  lemma StepKeepsInv(w: World, a: Action)
    requires Inv(w) && (a.Call? ==> Ticks(w.clocks, a.op))
    ensures Inv(Step(w, a))
  {
    match a
    case Call(op) =>
      if op.Restart? {
        RestartForgets(w);
      } else {
        CallRefines(w, op);
      }
    case Snapshot(k) =>
      assert w.ledger[..|w.ledger|] == w.ledger;
    case Write(k, lands) =>
  }

  lemma {:induction false} RunKeepsInv(actions: seq<Action>)
    requires WellTimed(actions)
    ensures Inv(Run(actions))
  {
    if actions != [] {
      RunKeepsInv(actions[..|actions| - 1]);
      StepKeepsInv(Run(actions[..|actions| - 1]), actions[|actions| - 1]);
    }
  }

  /** However saves overlap, fail or land out of order, every call is answered as by a ledger that forgets, at a
      restart, the facts behind those the file shows. */
  lemma AnswersLikeForgetfulLedger(actions: seq<Action>, op: Op)
    requires WellTimed(actions) && Ticks(Run(actions).clocks, op)
    ensures Exec(Run(actions).tables, op).1 == SpecExec(Run(actions).ledger, op).1
  {
    RunKeepsInv(actions);
    if !op.Restart? {
      CallRefines(Run(actions), op);
    }
  }

  // ---------------------------------------------------------------------------
  // Codes and tokens under every schedule of saves
  // ---------------------------------------------------------------------------

  /** The calls of a schedule, in order. */
  function Calls(actions: seq<Action>): seq<Op> {
    if actions == [] then []
    else
      var before, a := Calls(actions[..|actions| - 1]), actions[|actions| - 1];
      if a.Call? then before + [a.op] else before
  }

  lemma RestartLosesCodes(l: Ledger, n: nat, code: Token)
    requires n <= |l|
    ensures PendingCode(l[..n] + [Rebooted], code) == None
  {
    OneMore(l[..n], Rebooted);
  }

  lemma CallsOneMore(ops: seq<Op>, op: Op)
    ensures LedgerOf(ops + [op]) == SpecExec(LedgerOf(ops), op).0
  {
    assert (ops + [op])[..|ops|] == ops;
  }

  function PendingAfter(pending: Option<CodeEntry>, a: Action, code: Token): Option<CodeEntry> {
    if !a.Call? then pending
    else if a.op.Issue? && a.op.code == code then Some(CodeEntry(a.op.client, a.op.now))
    else if Spends(a.op, code) then None
    else pending
  }

  lemma PendingOneMore(w: World, a: Action, code: Token)
    requires WithinLedger(w)
    ensures PendingCode(Step(w, a).ledger, code) == PendingAfter(PendingCode(w.ledger, code), a, code)
  {
    if a.Call? {
      if a.op.Restart? {
        RestartLosesCodes(w.ledger, w.shown, code);
      } else {
        PendingStep(w.ledger, a.op, code);
      }
    }
  }

  lemma CallPendingOneMore(ops: seq<Op>, op: Op, code: Token)
    ensures PendingCode(LedgerOf(ops + [op]), code) == PendingAfter(PendingCode(LedgerOf(ops), code), Call(op), code)
  {
    CallsOneMore(ops, op);
    PendingStep(LedgerOf(ops), op, code);
  }

  /** No save touches the codes: what is pending depends on the calls alone. */
  lemma {:induction false} CodesFollowCalls(actions: seq<Action>, code: Token)
    ensures PendingCode(Run(actions).ledger, code) == PendingCode(LedgerOf(Calls(actions)), code)
  {
    if actions != [] {
      var n := |actions| - 1;
      var w, a, ops := Run(actions[..n]), actions[n], Calls(actions[..n]);
      CodesFollowCalls(actions[..n], code);
      PendingOneMore(w, a, code);
      if a.Call? {
        CallPendingOneMore(ops, a.op, code);
      }
    }
  }

  /** Under every schedule an exchange is answered with a pair exactly when its code was issued to the same client at
      most 60 seconds before, by a call since which the code was neither tried nor issued again nor lost. */
  lemma CodeYieldsPairAnyway(actions: seq<Action>, op: Op)
    requires WellTimed(actions) && Ticks(Run(actions).clocks, op) && op.Exchange?
    ensures var reply, ops := Exec(Run(actions).tables, op).1, Calls(actions);
      && (reply == Pair(op.access, op.refresh) || reply == Refused)
      && (reply.Pair? <==> exists j: nat :: IssuedUntried(ops, op.code, j)
                                         && ops[j].client == op.client && op.now <= ops[j].now + 60000000000)
  {
    var ops := Calls(actions);
    AnswersLikeForgetfulLedger(actions, op);
    CodesFollowCalls(actions, op.code);
    if PendingCode(LedgerOf(ops), op.code).Some? {
      var j := PendingIsUntried(ops, op.code);
    }
    forall j: nat | IssuedUntried(ops, op.code, j)
      ensures PendingCode(LedgerOf(ops), op.code) == Some(CodeEntry(ops[j].client, ops[j].now))
    {
      UntriedIsPending(ops, op.code, j);
    }
  }

  /** Under every schedule an access token validates exactly when it was issued at most 1800 seconds ago and no refresh
      token of its client was revoked since, as far as the running process knows. */
  lemma AccessTokenValidityAnyway(actions: seq<Action>, token: Token, wall: nat)
    requires WellTimed(actions) && Run(actions).clocks.wall <= wall
    ensures var w := Run(actions);
      Exec(w.tables, Validate(token, wall)).1 == Valid <==>
      exists i: nat ::
        IssuedUnrevoked(w.ledger, token, i) && wall <= AccessOf(w.ledger[i], token).value.issuedAt + 1800
  {
    var l := Run(actions).ledger;
    AnswersLikeForgetfulLedger(actions, Validate(token, wall));
    if UnrevokedAccess(l, token).Some? {
      var i := UnrevokedFound(l, token);
    }
    forall i: nat | IssuedUnrevoked(l, token, i)
      ensures UnrevokedAccess(l, token) == AccessOf(l[i], token)
    {
      UnrevokedMeans(l, token, i);
    }
  }

  lemma {:induction false} PrefixIsWellTimed(actions: seq<Action>, i: nat)
    requires WellTimed(actions) && i < |actions|
    ensures WellTimed(actions[..i]) && (actions[i].Call? ==> Ticks(Run(actions[..i]).clocks, actions[i].op))
  {
    var n := |actions| - 1;
    if i < n {
      PrefixIsWellTimed(actions[..n], i);
      assert actions[..n][..i] == actions[..i];
    }
  }

  /** Where call i of the schedule stands among its calls. */
  lemma {:induction false} CallPosition(actions: seq<Action>, i: nat)
    requires i < |actions| && actions[i].Call?
    ensures |Calls(actions[..i])| < |Calls(actions)| && Calls(actions)[|Calls(actions[..i])|] == actions[i].op
    ensures Calls(actions[..i]) <= Calls(actions)
  {
    var n := |actions| - 1;
    if i < n {
      CallPosition(actions[..n], i);
      assert actions[..n][..i] == actions[..i];
    }
  }

  /** The call at position p among the calls behind action i is some action behind it. */
  lemma {:induction false} ActionOfCall(actions: seq<Action>, i: nat, p: nat) returns (j: nat)
    requires i < |actions| && actions[i].Call? && |Calls(actions[..i])| < p < |Calls(actions)|
    ensures i < j < |actions| && actions[j] == Call(Calls(actions)[p])
  {
    var n := |actions| - 1;
    CallPosition(actions, i);
    if i == n {
      assert false;
    } else {
      assert actions[..n][..i] == actions[..i];
      if p < |Calls(actions[..n])| {
        j := ActionOfCall(actions[..n], i, p);
      } else {
        j := n;
      }
    }
  }

  /** One issued code yields at most one pair, however saves overlap, fail or land out of order. */
  lemma OnePairPerIssueAnyway(actions: seq<Action>, i: nat, k: nat) returns (j: nat)
    requires WellTimed(actions) && i < k < |actions| && actions[i].Call? && actions[k].Call?
    requires actions[i].op.Exchange? && actions[k].op.Exchange? && actions[i].op.code == actions[k].op.code
    requires Exec(Run(actions[..k]).tables, actions[k].op).1.Pair?
    ensures i < j < k && actions[j].Call? && actions[j].op.Issue? && actions[j].op.code == actions[i].op.code
  {
    var before, code := actions[..k], actions[k].op.code;
    PrefixIsWellTimed(actions, k);
    CodeYieldsPairAnyway(before, actions[k].op);
    var p: nat :| IssuedUntried(Calls(before), code, p);
    CallPosition(before, i);
    assert Spends(Calls(before)[|Calls(before[..i])|], code);
    j := ActionOfCall(before, i, p);
  }

  /** The clients of all access tokens can renew: in memory, in the file, and in every snapshot on its way. */
  predicate AllRenewable(w: World) {
    && Renewable(w.tables.access, w.tables.refresh)
    && Renewable(OnDisk(w.tables.file).access, OnDisk(w.tables.file).refresh)
    && forall k :: k in w.saves && w.saves[k].Taken? ==>
         Renewable(w.saves[k].snapshot.access, w.saves[k].snapshot.refresh)
  }

  /** Every new refresh token differs from the live ones. */
  predicate FreshTokens(actions: seq<Action>) {
    actions == [] ||
    var a, t := actions[|actions| - 1], Run(actions[..|actions| - 1]).tables;
    FreshTokens(actions[..|actions| - 1]) && (a.Call? && a.op.Exchange? ==> a.op.refresh !in t.refresh)
  }

  lemma CallKeepsRenewable(w: World, op: Op)
    requires WithinLedger(w) && AllRenewable(w) && (op.Exchange? ==> op.refresh !in w.tables.refresh)
    ensures AllRenewable(CallStep(w, op))
  {
    var t, t' := w.tables, Exec(w.tables, op).0;
    forall a | a in t'.access ensures exists r :: r in t'.refresh && t'.refresh[r] == t'.access[a].client {
      var _ := WhoCanRenew(t, op, a);
    }
  }

  /** Whoever holds an access token can renew it, under every schedule and through every restart. */
  lemma {:induction false} EveryHolderCanRenewAnyway(actions: seq<Action>)
    requires FreshTokens(actions)
    ensures AllRenewable(Run(actions))
  {
    if actions != [] {
      var w, a := Run(actions[..|actions| - 1]), actions[|actions| - 1];
      EveryHolderCanRenewAnyway(actions[..|actions| - 1]);
      if a.Call? {
        CallKeepsRenewable(w, a.op);
      }
    }
  }

  // ---------------------------------------------------------------------------
  // Which facts the file shows
  // ---------------------------------------------------------------------------

  /** Action i takes the snapshot of save k. */
  predicate Takes(actions: seq<Action>, i: nat, k: nat) {
    && i < |actions| && actions[i] == Snapshot(k)
    && k in Run(actions[..i]).saves && Run(actions[..i]).saves[k].Owed?
  }

  /** Action j lands a write. */
  predicate Lands(actions: seq<Action>, j: nat) {
    && j < |actions| && actions[j].Write? && actions[j].lands
    && actions[j].save in Run(actions[..j]).saves && Run(actions[..j]).saves[actions[j].save].Taken?
  }

  lemma InPrefix(actions: seq<Action>, i: nat, k: nat)
    requires i < |actions| - 1
    ensures Takes(actions, i, k) <==> Takes(actions[..|actions| - 1], i, k)
    ensures Lands(actions, i) <==> Lands(actions[..|actions| - 1], i)
  {
    assert actions[..|actions| - 1][..i] == actions[..i];
  }

  lemma {:induction false} SeenAtSnapshot(actions: seq<Action>, k: nat) returns (i: nat)
    requires k in Run(actions).saves && Run(actions).saves[k].Taken?
    ensures Takes(actions, i, k) && Run(actions).saves[k].seen == |Run(actions[..i]).ledger|
  {
    var n := |actions| - 1;
    if actions[n] == Snapshot(k) && k in Run(actions[..n]).saves && Run(actions[..n]).saves[k].Owed? {
      i := n;
    } else {
      i := SeenAtSnapshot(actions[..n], k);
      InPrefix(actions, i, k);
      assert actions[..n][..i] == actions[..i];
    }
  }

  predicate NoneLands(actions: seq<Action>, from: nat) {
    forall l :: from <= l < |actions| ==> !Lands(actions, l)
  }

  lemma NoneLandsOneMore(actions: seq<Action>, from: nat)
    requires actions != [] && NoneLands(actions[..|actions| - 1], from) && !Lands(actions, |actions| - 1)
    ensures NoneLands(actions, from)
  {
    forall l | from <= l < |actions| ensures !Lands(actions, l) {
      if l < |actions| - 1 {
        InPrefix(actions, l, 0);
      }
    }
  }

  lemma OnlyLandingShows(w: World, a: Action)
    requires WithinLedger(w)
    requires !(a.Write? && a.lands && a.save in w.saves && w.saves[a.save].Taken?)
    ensures Step(w, a).shown == w.shown
  {
  }

  /** The file shows the facts there were when the snapshot was taken, by action i, whose write landed last, by action
      j; or none, if no write has landed. */
  lemma {:induction false} ShownAtSnapshot(actions: seq<Action>) returns (last: Option<(nat, nat)>)
    ensures match last
      case Some((i, j)) =>
        && i < j < |actions| && Lands(actions, j) && NoneLands(actions, j + 1)
        && Takes(actions, i, actions[j].save) && Run(actions).shown == |Run(actions[..i]).ledger|
      case None => NoneLands(actions, 0) && Run(actions).shown == 0
  {
    var n := |actions| - 1;
    if actions == [] {
      last := None;
    } else if Lands(actions, n) {
      var i := SeenAtSnapshot(actions[..n], actions[n].save);
      InPrefix(actions, i, actions[n].save);
      assert actions[..n][..i] == actions[..i];
      last := Some((i, n));
    } else {
      last := ShownAtSnapshot(actions[..n]);
      OnlyLandingShows(Run(actions[..n]), actions[n]);
      match last
      case None => NoneLandsOneMore(actions, 0);
      case Some((i, j)) =>
        NoneLandsOneMore(actions, j + 1);
        InPrefix(actions, i, actions[j].save);
        InPrefix(actions, j, 0);
        assert actions[..n][..i] == actions[..i];
    }
  }

  // ---------------------------------------------------------------------------
  // What a restart does to one token, exactly
  // ---------------------------------------------------------------------------

  /** Fact g, and no other, granted the refresh token. */
  predicate GrantedOnce(l: Ledger, token: Token, g: nat) {
    && g < |l| && l[g].Granted? && l[g].refresh == token
    && forall j :: 0 <= j < |l| && j != g ==> !(l[j].Granted? && l[j].refresh == token)
  }

  predicate RevokedWithin(l: Ledger, token: Token, from: nat, to: nat)
    requires to <= |l|
  {
    exists i :: from <= i < to && l[i].Revoked? && l[i].refresh == token
  }

  lemma {:induction false} LiveAmongFirst(l: Ledger, token: Token, g: nat, n: nat)
    requires GrantedOnce(l, token, g) && n <= |l|
    ensures LiveRefresh(l[..n], token)
         == if g < n && !RevokedWithin(l, token, g, n) then Some(l[g].client) else None
  {
    if n > 0 {
      LiveAmongFirst(l, token, g, n - 1);
      assert l[..n][..n - 1] == l[..n - 1];
      assert RevokedWithin(l, token, g, n) <==>
        RevokedWithin(l, token, g, n - 1) || (g < n && l[n - 1].Revoked? && l[n - 1].refresh == token);
    }
  }

  /** A restart leaves a refresh token as it is exactly if the file shows its grant and every revocation there was, or
      shows no grant and the token was revoked. Otherwise a live token is lost or a revoked one comes back. */
  lemma RefreshTokenAfterRestart(actions: seq<Action>, token: Token, g: nat)
    requires WellTimed(actions) && GrantedOnce(Run(actions).ledger, token, g)
    ensures var w := Run(actions);
      var l, n, client := w.ledger, |w.ledger|, w.ledger[g].client;
      var before, after := Lookup(w.tables.refresh, token), Lookup(Step(w, Call(Restart)).tables.refresh, token);
      && before == (if RevokedWithin(l, token, g, n) then None else Some(client))
      && after == (if g < w.shown && !RevokedWithin(l, token, g, w.shown) then Some(client) else None)
      && (after == before <==>
            if g < w.shown then RevokedWithin(l, token, g, w.shown) || !RevokedWithin(l, token, w.shown, n)
            else RevokedWithin(l, token, g, n))
  {
    var w := Run(actions);
    RunKeepsInv(actions);
    assert w.ledger[..|w.ledger|] == w.ledger;
    LiveAmongFirst(w.ledger, token, g, |w.ledger|);
    LiveAmongFirst(w.ledger, token, g, w.shown);
    assert Lookup(w.tables.refresh, token) == LiveRefresh(w.ledger, token);
    assert Lookup(OnDisk(w.tables.file).refresh, token) == LiveRefresh(w.ledger[..w.shown], token);
  }

  /** Fact g, and no other, issued the access token. */
  predicate IssuedOnce(l: Ledger, token: Token, g: nat) {
    && g < |l| && AccessOf(l[g], token).Some?
    && forall j :: 0 <= j < |l| && j != g ==> AccessOf(l[j], token).None?
  }

  predicate ClientRevokedWithin(l: Ledger, client: Client, from: nat, to: nat)
    requires to <= |l|
  {
    exists i :: from <= i < to && l[i].Revoked? && l[i].client == client
  }

  lemma {:induction false} UnrevokedAmongFirst(l: Ledger, token: Token, g: nat, n: nat)
    requires IssuedOnce(l, token, g) && n <= |l|
    ensures var e := AccessOf(l[g], token);
      UnrevokedAccess(l[..n], token) == if g < n && !ClientRevokedWithin(l, e.value.client, g, n) then e else None
  {
    if n > 0 {
      var client := AccessOf(l[g], token).value.client;
      UnrevokedAmongFirst(l, token, g, n - 1);
      assert l[..n][..n - 1] == l[..n - 1];
      assert ClientRevokedWithin(l, client, g, n) <==>
        ClientRevokedWithin(l, client, g, n - 1) || (g < n && l[n - 1].Revoked? && l[n - 1].client == client);
    }
  }

  lemma AccessTokenBefore(w: World, token: Token, g: nat, wall: nat)
    requires Inv(w) && w.clocks.wall <= wall && IssuedOnce(w.ledger, token, g)
    ensures var e := AccessOf(w.ledger[g], token).value;
      Exec(w.tables, Validate(token, wall)).1 == Valid <==>
      wall <= e.issuedAt + 1800 && !ClientRevokedWithin(w.ledger, e.client, g, |w.ledger|)
  {
    CallRefines(w, Validate(token, wall));
    assert w.ledger[..|w.ledger|] == w.ledger;
    UnrevokedAmongFirst(w.ledger, token, g, |w.ledger|);
  }

  lemma AccessTokenBehind(w: World, token: Token, g: nat, wall: nat)
    requires Inv(w) && w.clocks.wall <= wall && IssuedOnce(w.ledger, token, g)
    ensures var e := AccessOf(w.ledger[g], token).value;
      Exec(CallStep(w, Restart).tables, Validate(token, wall)).1 == Valid <==>
      g < w.shown && wall <= e.issuedAt + 1800 && !ClientRevokedWithin(w.ledger, e.client, g, w.shown)
  {
    RestartForgets(w);
    CallRefines(CallStep(w, Restart), Validate(token, wall));
    UnrevokedAmongFirst(w.ledger, token, g, w.shown);
    OneMore(w.ledger[..w.shown], Rebooted);
  }

  /** An access token validates before a restart if it is at most 1800 seconds old and no refresh token of its client
      was revoked since its issue; behind the restart, if the file shows its issue and none of those revocations. */
  lemma AccessTokenAfterRestart(actions: seq<Action>, token: Token, g: nat, wall: nat)
    requires WellTimed(actions) && Run(actions).clocks.wall <= wall && IssuedOnce(Run(actions).ledger, token, g)
    ensures var w := Run(actions);
      var e := AccessOf(w.ledger[g], token).value;
      && (Exec(w.tables, Validate(token, wall)).1 == Valid <==>
            wall <= e.issuedAt + 1800 && !ClientRevokedWithin(w.ledger, e.client, g, |w.ledger|))
      && (Exec(Step(w, Call(Restart)).tables, Validate(token, wall)).1 == Valid <==>
            && g < w.shown
            && wall <= e.issuedAt + 1800 && !ClientRevokedWithin(w.ledger, e.client, g, w.shown))
  {
    RunKeepsInv(actions);
    AccessTokenBefore(Run(actions), token, g, wall);
    AccessTokenBehind(Run(actions), token, g, wall);
  }

  // ---------------------------------------------------------------------------
  // Saves in order
  // ---------------------------------------------------------------------------

  predicate TokenFact(f: Fact) {
    f.Granted? || f.Renewed? || f.Revoked?
  }

  /** Every write lands, and none of an older snapshot than the one in the file. */
  predicate InOrder(actions: seq<Action>) {
    actions == [] ||
    (InOrder(actions[..|actions| - 1]) && LandsInOrder(Run(actions[..|actions| - 1]), actions[|actions| - 1]))
  }

  predicate LandsInOrder(w: World, a: Action) {
    a.Write? && a.save in w.saves && w.saves[a.save].Taken? ==> a.lands && w.shown <= w.saves[a.save].seen
  }

  /** A save on its way will show fact i. */
  predicate WillShow(saves: map<nat, Stage>, i: nat) {
    exists k :: k in saves && (saves[k].Owed? || i < saves[k].seen)
  }

  predicate NoneIsMissed(w: World) {
    && (forall k :: k in w.saves ==> k < w.begun)
    && forall i :: w.shown <= i < |w.ledger| && TokenFact(w.ledger[i]) ==> WillShow(w.saves, i)
  }

  lemma CallOwesItsFacts(w: World, op: Op)
    requires Inv(w) && !op.Restart? && Ticks(w.clocks, op) && NoneIsMissed(w)
    ensures NoneIsMissed(CallStep(w, op))
  {
    var w' := CallStep(w, op);
    LedgerGrows(w.ledger, op);
    CallRefines(w, op);
    forall i | w'.shown <= i < |w'.ledger| && TokenFact(w'.ledger[i])
      ensures WillShow(w'.saves, i)
    {
      if i < |w.ledger| {
        assert w'.ledger[i] == w.ledger[i];
        var k :| k in w.saves && (w.saves[k].Owed? || i < w.saves[k].seen);
        assert k in w'.saves && w'.saves[k] == w.saves[k];
      } else {
        assert w.begun in w'.saves && w'.saves[w.begun].Owed?;
      }
    }
  }

  lemma StepMissesNone(w: World, a: Action)
    requires Inv(w) && (a.Call? ==> Ticks(w.clocks, a.op)) && LandsInOrder(w, a) && NoneIsMissed(w)
    ensures NoneIsMissed(Step(w, a))
  {
    if a.Call? {
      if !a.op.Restart? {
        CallOwesItsFacts(w, a.op);
      }
    } else {
      var w' := Step(w, a);
      forall i | w'.shown <= i < |w'.ledger| && TokenFact(w'.ledger[i])
        ensures WillShow(w'.saves, i)
      {
        var k :| k in w.saves && (w.saves[k].Owed? || i < w.saves[k].seen);
        assert k in w'.saves && (w'.saves[k].Owed? || i < w'.saves[k].seen);
      }
    }
  }

  lemma {:induction false} OrderMissesNone(actions: seq<Action>)
    requires WellTimed(actions) && InOrder(actions)
    ensures NoneIsMissed(Run(actions))
  {
    if actions != [] {
      RunKeepsInv(actions[..|actions| - 1]);
      OrderMissesNone(actions[..|actions| - 1]);
      StepMissesNone(Run(actions[..|actions| - 1]), actions[|actions| - 1]);
    }
  }

  lemma {:induction false} OtherFactsDoNotShow(l: Ledger, n: nat, refresh: Token, access: Token)
    requires n <= |l| && forall i :: n <= i < |l| ==> !TokenFact(l[i])
    ensures LiveRefresh(l[..n], refresh) == LiveRefresh(l, refresh)
    ensures UnrevokedAccess(l[..n], access) == UnrevokedAccess(l, access)
  {
    if n < |l| {
      var shorter := l[..|l| - 1];
      OtherFactsDoNotShow(shorter, n, refresh, access);
      assert shorter[..n] == l[..n];
    } else {
      assert l[..n] == l;
    }
  }

  lemma ShowsAll(p: Persisted, l: Ledger, n: nat, wall: nat)
    requires n <= |l| && Shows(p, l, n, wall) && forall i :: n <= i < |l| ==> !TokenFact(l[i])
    ensures RefreshAgrees(p.refresh, l) && AccessTableAgrees(p.access, l, wall)
  {
    forall r ensures Lookup(p.refresh, r) == LiveRefresh(l, r) {
      OtherFactsDoNotShow(l, n, r, r);
    }
    forall a ensures AccessAgrees(Lookup(p.access, a), UnrevokedAccess(l, a), wall) {
      OtherFactsDoNotShow(l, n, a, a);
    }
  }

  lemma ReloadRefines(t: Tables, l: Ledger, c: Clocks)
    requires RefreshAgrees(OnDisk(t.file).refresh, l) && AccessTableAgrees(OnDisk(t.file).access, l, c.wall)
    ensures Refines(Reload(t), l + [Rebooted], After(c, Restart))
  {
    var d := OnDisk(t.file);
    CodeFactKeepsTokens(t.(refresh := d.refresh, access := d.access), l, c.wall, Rebooted);
    OneMore(l, Rebooted);
  }

  /** Where writes land in the order of their snapshots, a restart between saves forgets nothing: the tables it loads
      show the whole ledger. */
  lemma OrderedSavesAreDurable(actions: seq<Action>)
    requires WellTimed(actions) && InOrder(actions) && Run(actions).saves == map[]
    ensures var w := Run(actions);
      Refines(Reload(w.tables), w.ledger + [Rebooted], After(w.clocks, Restart))
  {
    var w := Run(actions);
    RunKeepsInv(actions);
    OrderMissesNone(actions);
    forall i | w.shown <= i < |w.ledger| ensures !TokenFact(w.ledger[i]) {
      assert !WillShow(w.saves, i);
    }
    ShowsAll(OnDisk(w.tables.file), w.ledger, w.shown, w.clocks.wall);
    ReloadRefines(w.tables, w.ledger, w.clocks);
  }

  // ---------------------------------------------------------------------------
  // Saves out of order
  // ---------------------------------------------------------------------------

  lemma OneMoreAction(actions: seq<Action>, a: Action)
    ensures Run(actions + [a]) == Step(Run(actions), a)
  {
    assert (actions + [a])[..|actions|] == actions;
  }

  function Grant(client: Client, code: Token, access: Token, refresh: Token): seq<Action> {
    [Call(Issue(client, 0, code))] + [Call(Exchange(client, code, 0, 0, access, refresh))]
  }

  lemma AfterGrant(client: Client, code: Token, access: Token, refresh: Token)
    ensures var w := Run(Grant(client, code, access, refresh));
      w.saves == map[0 := Owed] && w.begun == 1 && w.tables.refresh == map[refresh := client]
  {
    var start: seq<Action> := [];
    var issue := [Call(Issue(client, 0, code))];
    assert start + issue == issue;
    OneMoreAction(start, issue[0]);
    OneMoreAction(issue, Call(Exchange(client, code, 0, 0, access, refresh)));
  }

  /** The snapshot of the grant is taken, and not yet written when the token is revoked. */
  function GrantAndRevoke(client: Client, code: Token, access: Token, refresh: Token): seq<Action> {
    Grant(client, code, access, refresh) + [Snapshot(0)] + [Call(Revoke(refresh))]
  }

  lemma AfterGrantAndRevoke(client: Client, code: Token, access: Token, refresh: Token)
    ensures var w := Run(GrantAndRevoke(client, code, access, refresh));
      && 0 in w.saves && w.saves[0].Taken? && w.saves[0].snapshot.refresh == map[refresh := client]
      && 1 in w.saves && w.saves[1].Owed? && w.tables.refresh == map[]
  {
    var grant := Grant(client, code, access, refresh);
    AfterGrant(client, code, access, refresh);
    OneMoreAction(grant, Snapshot(0));
    OneMoreAction(grant + [Snapshot(0)], Call(Revoke(refresh)));
  }

  /** The revocation saves, the older snapshot lands behind it, and the token works again after a restart. */
  lemma OldSnapshotRevives(client: Client, code: Token, access: Token, refresh: Token)
    ensures var saved := GrantAndRevoke(client, code, access, refresh) + [Snapshot(1)] + [Write(1, true)];
      && Lookup(OnDisk(Run(saved).tables.file).refresh, refresh) == None
      && Lookup(Run(saved + [Write(0, true)] + [Call(Restart)]).tables.refresh, refresh) == Some(client)
  {
    var first := GrantAndRevoke(client, code, access, refresh);
    AfterGrantAndRevoke(client, code, access, refresh);
    OneMoreAction(first, Snapshot(1));
    OneMoreAction(first + [Snapshot(1)], Write(1, true));
    var saved := first + [Snapshot(1)] + [Write(1, true)];
    OneMoreAction(saved, Write(0, true));
    OneMoreAction(saved + [Write(0, true)], Call(Restart));
  }
}
