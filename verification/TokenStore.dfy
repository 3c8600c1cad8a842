/** The OAuth token store of ha_auth.rs: authorization codes, refresh tokens and access tokens, with lazy expiry,
    revocation and reload from disk, against a ledger that never forgets anything
    (RFC 6749, sections 4.1.2, 4.1.3 and 6; RFC 7009, section 2).

    Identifiers from Uuid::new_v4 and both clocks are parameters. Here the save of a call completes with it; TokenSaves
    takes the two apart. */
module TokenStore {
  import opened Text

  const ACCESS_TOKEN_TTL_SECS: nat := 1800

  /** 60 seconds of the monotonic clock, in nanoseconds. */
  const AUTH_CODE_TTL: nat := 60000000000

  type Token = string
  type Client = string

  datatype CodeEntry = CodeEntry(client: Client, issuedAt: nat)

  datatype AccessEntry = AccessEntry(client: Client, issuedAt: nat)

  /** The contents of tokens.json. Authorization codes are never written to it. */
  datatype Persisted = Persisted(refresh: map<Token, Client>, access: map<Token, AccessEntry>)

  datatype Tables = Tables(codes: map<Token, CodeEntry>, refresh: map<Token, Client>,
                           access: map<Token, AccessEntry>, file: Option<Persisted>)

  const FRESH_INSTALL := Tables(map[], map[], map[], None)

  /** One call. `now` reads the monotonic clock, `wall` the wall clock in seconds. */
  datatype Op =
    | Issue(client: Client, now: nat, code: Token)
    | Exchange(client: Client, code: Token, now: nat, wall: nat, access: Token, refresh: Token)
    | Refresh(claimed: Option<Client>, refresh: Token, wall: nat, access: Token)
    | Revoke(refresh: Token)
    | Validate(access: Token, wall: nat)
    | Restart

  datatype Reply = Code(code: Token) | Pair(access: Token, refresh: Token) | Access(access: Token)
                 | Refused | Valid | Invalid | Done

  predicate CodeExpired(e: CodeEntry, now: nat) {
    now > e.issuedAt + AUTH_CODE_TTL
  }

  predicate AccessExpired(e: AccessEntry, wall: nat) {
    wall > e.issuedAt + ACCESS_TOKEN_TTL_SECS
  }

  // ---------------------------------------------------------------------------
  // The operations as functions of the tables
  // ---------------------------------------------------------------------------

  function Save(t: Tables): Tables {
    t.(file := Some(Persisted(t.refresh, t.access)))
  }

  function IssueCode(t: Tables, client: Client, now: nat, code: Token): Tables {
    t.(codes := (map c | c in t.codes && !CodeExpired(t.codes[c], now) :: t.codes[c])[code := CodeEntry(client, now)])
  }

  function ExchangeCode(t: Tables, client: Client, code: Token, now: nat, wall: nat, access: Token, refresh: Token)
    : (Tables, Reply)
  {
    if code !in t.codes then (t, Refused)
    else
      var entry := t.codes[code];
      var used := t.(codes := Without(t.codes, code));
      if CodeExpired(entry, now) || entry.client != client then (used, Refused)
      else
        (Save(used.(refresh := used.refresh[refresh := client],
                    access := used.access[access := AccessEntry(client, wall)])),
         Pair(access, refresh))
  }

  function RefreshAccess(t: Tables, claimed: Option<Client>, refresh: Token, wall: nat, access: Token)
    : (Tables, Reply)
  {
    if refresh !in t.refresh then (t, Refused)
    else if claimed.Some? && t.refresh[refresh] != claimed.value then (t, Refused)
    else (Save(t.(access := t.access[access := AccessEntry(t.refresh[refresh], wall)])), Access(access))
  }

  function RevokeRefresh(t: Tables, refresh: Token): Tables {
    if refresh !in t.refresh then Save(t)
    else
      var client := t.refresh[refresh];
      Save(t.(refresh := Without(t.refresh, refresh),
              access := map a | a in t.access && t.access[a].client != client :: t.access[a]))
  }

  /** An expired entry is evicted from memory only. */
  function ValidateAccess(t: Tables, access: Token, wall: nat): (Tables, Reply) {
    if access !in t.access then (t, Invalid)
    else if AccessExpired(t.access[access], wall) then (t.(access := Without(t.access, access)), Invalid)
    else (t, Valid)
  }

  function Reload(t: Tables): Tables {
    match t.file
    case None => Tables(map[], map[], map[], None)
    case Some(p) => Tables(map[], p.refresh, p.access, t.file)
  }

  function Exec(t: Tables, op: Op): (Tables, Reply) {
    match op
    case Issue(client, now, code) => (IssueCode(t, client, now, code), Code(code))
    case Exchange(client, code, now, wall, access, refresh) => ExchangeCode(t, client, code, now, wall, access, refresh)
    case Refresh(claimed, refresh, wall, access) => RefreshAccess(t, claimed, refresh, wall, access)
    case Revoke(refresh) => (RevokeRefresh(t, refresh), Done)
    case Validate(access, wall) => ValidateAccess(t, access, wall)
    case Restart => (Reload(t), Done)
  }

  /** What is found where tokens.json should be. */
  datatype Contents = Missing | Garbled | Readable(tables: Persisted)

  /** What a store leaves there. */
  function FileOf(t: Tables): Contents {
    match t.file case None => Missing case Some(tables) => Readable(tables)
  }

  /** The tables after a call whose save lands, or whose save fails and leaves the file as it was. */
  function IfSaved(t: Tables, file: Option<Persisted>, lands: bool): Tables {
    if lands then t else t.(file := file)
  }

  // ---------------------------------------------------------------------------
  // The store itself
  // ---------------------------------------------------------------------------

  class TokenStore {
    var authCodes: map<Token, CodeEntry>
    var refreshTokens: map<Token, Client>
    var accessTokens: map<Token, AccessEntry>
    var file: Option<Persisted>

    ghost function View(): Tables
      reads this
    {
      Tables(authCodes, refreshTokens, accessTokens, file)
    }

    /** A new process over the file an earlier one may have left, before and after load_persisted: both tables are
        those of the file, or empty if there is none or it does not parse. So behind what another store has saved it
        is that store restarted. */
    constructor (contents: Contents)
      ensures authCodes == map[]
      ensures contents.Readable? ==>
        refreshTokens == contents.tables.refresh && accessTokens == contents.tables.access
        && file == Some(contents.tables)
      ensures !contents.Readable? ==> refreshTokens == map[] && accessTokens == map[]
      ensures contents.Missing? ==> file == None
      ensures contents.Garbled? ==> file == Some(Persisted(map[], map[]))
      ensures forall t :: FileOf(t) == contents ==> View() == Exec(t, Restart).0
    {
      authCodes := map[];
      refreshTokens := map[];
      accessTokens := map[];
      file := if contents.Missing? then None
              else Some(if contents.Readable? then contents.tables else Persisted(map[], map[]));
      new;
      if contents.Readable? {
        refreshTokens := contents.tables.refresh;
        accessTokens := contents.tables.access;
      }
    }

    /** A failed save is logged and changes nothing. */
    method SavePersisted(lands: bool)
      modifies this`file
      ensures View() == if lands then Save(old(View())) else old(View())
    {
      if lands {
        file := Some(Persisted(refreshTokens, accessTokens));
      }
    }

    method IssueAuthCode(client: Client, now: nat, code: Token)
      modifies this`authCodes
      ensures View() == Exec(old(View()), Issue(client, now, code)).0
    {
      authCodes := map c | c in authCodes && !(now - authCodes[c].issuedAt > AUTH_CODE_TTL) :: authCodes[c];
      authCodes := authCodes[code := CodeEntry(client, now)];
    }

    method ExchangeAuthCode(client: Client, code: Token, now: nat, wall: nat, access: Token, refresh: Token,
                            lands: bool)
      returns (r: Option<(Token, Token)>)
      modifies this
      ensures var (t, reply) := Exec(old(View()), Exchange(client, code, now, wall, access, refresh));
        && View() == IfSaved(t, old(file), lands)
        && reply == (match r case None => Refused case Some((a, b)) => Pair(a, b))
    {
      if code !in authCodes {
        return None;
      }
      var entry := authCodes[code];
      authCodes := Without(authCodes, code);
      if now - entry.issuedAt > AUTH_CODE_TTL {
        return None;
      }
      if entry.client != client {
        return None;
      }
      refreshTokens := refreshTokens[refresh := client];
      accessTokens := accessTokens[access := AccessEntry(client, wall)];
      SavePersisted(lands);
      r := Some((access, refresh));
    }

    method RefreshAccessToken(claimed: Option<Client>, refresh: Token, wall: nat, access: Token, lands: bool)
      returns (r: Option<Token>)
      modifies this
      ensures var (t, reply) := Exec(old(View()), Refresh(claimed, refresh, wall, access));
        && View() == IfSaved(t, old(file), lands)
        && reply == (match r case None => Refused case Some(a) => Access(a))
    {
      if refresh !in refreshTokens {
        return None;
      }
      var stored := refreshTokens[refresh];
      if claimed.Some? && stored != claimed.value {
        return None;
      }
      accessTokens := accessTokens[access := AccessEntry(stored, wall)];
      SavePersisted(lands);
      r := Some(access);
    }

    method RevokeRefreshToken(token: Token, lands: bool)
      modifies this
      ensures View() == IfSaved(Exec(old(View()), Revoke(token)).0, old(file), lands)
    {
      if token in refreshTokens {
        var client := refreshTokens[token];
        refreshTokens := Without(refreshTokens, token);
        accessTokens := map a | a in accessTokens && accessTokens[a].client != client :: accessTokens[a];
      }
      SavePersisted(lands);
    }

    method ValidateAccessToken(token: Token, wall: nat) returns (valid: bool)
      modifies this`accessTokens
      ensures var (t, reply) := Exec(old(View()), Validate(token, wall));
        View() == t && reply == if valid then Valid else Invalid
    {
      if token !in accessTokens {
        return false;
      }
      var entry := accessTokens[token];
      var age := if wall < entry.issuedAt then 0 else wall - entry.issuedAt;
      if age > ACCESS_TOKEN_TTL_SECS {
        accessTokens := Without(accessTokens, token);
        return false;
      }
      valid := true;
    }
  }

  // ---------------------------------------------------------------------------
  // The specification: a ledger of facts, never swept, evicted or reloaded
  // ---------------------------------------------------------------------------

  datatype Fact =
    | Issued(code: Token, entry: CodeEntry)
    | Tried(code: Token)
    | Granted(code: Token, client: Client, now: nat, wall: nat, access: Token, refresh: Token)
    | Renewed(client: Client, wall: nat, access: Token)
    | Revoked(client: Client, refresh: Token)
    | Rebooted

  type Ledger = seq<Fact>

  /** The entry of a code issued in this process and not tried since. */
  function PendingCode(l: Ledger, code: Token): Option<CodeEntry> {
    if l == [] then None
    else match l[|l| - 1]
      case Issued(c, e) => if c == code then Some(e) else PendingCode(l[..|l| - 1], code)
      case Tried(c) => if c == code then None else PendingCode(l[..|l| - 1], code)
      case Rebooted => None
      case _ => PendingCode(l[..|l| - 1], code)
  }

  /** The client of a refresh token granted and not revoked since. */
  function LiveRefresh(l: Ledger, token: Token): Option<Client> {
    if l == [] then None
    else match l[|l| - 1]
      case Granted(_, c, _, _, _, r) => if r == token then Some(c) else LiveRefresh(l[..|l| - 1], token)
      case Revoked(_, r) => if r == token then None else LiveRefresh(l[..|l| - 1], token)
      case _ => LiveRefresh(l[..|l| - 1], token)
  }

  function AccessOf(f: Fact, token: Token): Option<AccessEntry> {
    match f
    case Granted(_, c, _, w, a, _) => if a == token then Some(AccessEntry(c, w)) else None
    case Renewed(c, w, a) => if a == token then Some(AccessEntry(c, w)) else None
    case _ => None
  }

  /** The entry of an access token whose client had no refresh token revoked since. */
  function UnrevokedAccess(l: Ledger, token: Token): Option<AccessEntry> {
    if l == [] then None
    else
      var f, before := l[|l| - 1], UnrevokedAccess(l[..|l| - 1], token);
      if AccessOf(f, token).Some? then AccessOf(f, token)
      else if f.Revoked? && before.Some? && before.value.client == f.client then None
      else before
  }

  function SpecExec(l: Ledger, op: Op): (Ledger, Reply) {
    match op
    case Issue(client, now, code) => (l + [Issued(code, CodeEntry(client, now))], Code(code))
    case Exchange(client, code, now, wall, access, refresh) =>
      var tried := l + [Tried(code)];
      (match PendingCode(l, code)
       case None => (tried, Refused)
       case Some(e) =>
         if e.client == client && now <= e.issuedAt + 60_000_000_000
         then (tried + [Granted(code, client, now, wall, access, refresh)], Pair(access, refresh))
         else (tried, Refused))
    case Refresh(claimed, refresh, wall, access) =>
      (match LiveRefresh(l, refresh)
       case None => (l, Refused)
       case Some(c) =>
         if claimed.Some? && claimed.value != c then (l, Refused)
         else (l + [Renewed(c, wall, access)], Access(access)))
    case Revoke(refresh) =>
      (match LiveRefresh(l, refresh)
       case None => (l, Done)
       case Some(c) => (l + [Revoked(c, refresh)], Done))
    case Validate(access, wall) =>
      (match UnrevokedAccess(l, access)
       case None => (l, Invalid)
       case Some(e) => (l, if wall <= e.issuedAt + 1800 then Valid else Invalid))
    case Restart => (l + [Rebooted], Done)
  }

  // ---------------------------------------------------------------------------
  // Refinement
  // ---------------------------------------------------------------------------

  /** The readings of the two clocks so far. The monotonic clock starts anew with the process. */
  datatype Clocks = Clocks(now: nat, wall: nat)

  predicate Ticks(c: Clocks, op: Op) {
    match op
    case Issue(_, now, _) => c.now <= now
    case Exchange(_, _, now, wall, _, _) => c.now <= now && c.wall <= wall
    case Refresh(_, _, wall, _) => c.wall <= wall
    case Validate(_, wall) => c.wall <= wall
    case _ => true
  }

  function After(c: Clocks, op: Op): Clocks {
    match op
    case Issue(_, now, _) => c.(now := now)
    case Exchange(_, _, now, wall, _, _) => Clocks(now, wall)
    case Refresh(_, _, wall, _) => c.(wall := wall)
    case Validate(_, wall) => c.(wall := wall)
    case Revoke(_) => c
    case Restart => c.(now := 0)
  }

  predicate CodeAgrees(stored: Option<CodeEntry>, spec: Option<CodeEntry>, now: nat) {
    stored == spec || (stored == None && spec.Some? && CodeExpired(spec.value, now))
  }

  predicate AccessAgrees(stored: Option<AccessEntry>, spec: Option<AccessEntry>, wall: nat) {
    stored == spec || (stored == None && spec.Some? && AccessExpired(spec.value, wall))
  }

  ghost predicate CodesAgree(codes: map<Token, CodeEntry>, l: Ledger, now: nat) {
    forall c :: CodeAgrees(Lookup(codes, c), PendingCode(l, c), now)
  }

  ghost predicate RefreshAgrees(refresh: map<Token, Client>, l: Ledger) {
    forall r :: Lookup(refresh, r) == LiveRefresh(l, r)
  }

  ghost predicate AccessTableAgrees(access: map<Token, AccessEntry>, l: Ledger, wall: nat) {
    forall a :: AccessAgrees(Lookup(access, a), UnrevokedAccess(l, a), wall)
  }

  function OnDisk(file: Option<Persisted>): Persisted {
    match file case None => Persisted(map[], map[]) case Some(p) => p
  }

  /** Memory and disk both show the ledger, except for entries that have expired. */
  ghost predicate Refines(t: Tables, l: Ledger, c: Clocks) {
    && CodesAgree(t.codes, l, c.now)
    && RefreshAgrees(t.refresh, l)
    && AccessTableAgrees(t.access, l, c.wall)
    && RefreshAgrees(OnDisk(t.file).refresh, l)
    && AccessTableAgrees(OnDisk(t.file).access, l, c.wall)
  }

  lemma OneMore(l: Ledger, f: Fact)
    ensures (l + [f])[..|l|] == l && (l + [f])[|l|] == f && |l + [f]| == |l| + 1
  {
  }

  lemma TimePasses(access: map<Token, AccessEntry>, l: Ledger, wall: nat, later: nat)
    requires AccessTableAgrees(access, l, wall) && wall <= later
    ensures AccessTableAgrees(access, l, later)
  {
  }

  /** A fact that issues no access token and revokes nothing leaves the two token tables alone. */
  lemma CodeFactKeepsTokens(t: Tables, l: Ledger, wall: nat, f: Fact)
    requires f.Issued? || f.Tried? || f.Rebooted?
    requires RefreshAgrees(t.refresh, l) && AccessTableAgrees(t.access, l, wall)
    ensures RefreshAgrees(t.refresh, l + [f]) && AccessTableAgrees(t.access, l + [f], wall)
  {
    OneMore(l, f);
    forall r ensures LiveRefresh(l + [f], r) == LiveRefresh(l, r) {}
    forall a ensures UnrevokedAccess(l + [f], a) == UnrevokedAccess(l, a) {}
  }

  /** A fact about tokens leaves the codes alone. */
  lemma TokenFactKeepsCodes(codes: map<Token, CodeEntry>, l: Ledger, now: nat, f: Fact)
    requires f.Granted? || f.Renewed? || f.Revoked?
    requires CodesAgree(codes, l, now)
    ensures CodesAgree(codes, l + [f], now)
  {
    OneMore(l, f);
    forall c ensures PendingCode(l + [f], c) == PendingCode(l, c) {}
  }

  lemma IssueRefines(t: Tables, l: Ledger, c: Clocks, client: Client, now: nat, code: Token)
    requires Refines(t, l, c) && c.now <= now
    ensures Refines(IssueCode(t, client, now, code), l + [Issued(code, CodeEntry(client, now))], c.(now := now))
  {
    var f := Issued(code, CodeEntry(client, now));
    var codes' := IssueCode(t, client, now, code).codes;
    OneMore(l, f);
    forall x ensures CodeAgrees(Lookup(codes', x), PendingCode(l + [f], x), now) {
      assert CodeAgrees(Lookup(t.codes, x), PendingCode(l, x), c.now);
    }
    CodeFactKeepsTokens(t, l, c.wall, f);
    var d := OnDisk(t.file);
    CodeFactKeepsTokens(t.(refresh := d.refresh, access := d.access), l, c.wall, f);
  }

  /** Trying a code uses it up. */
  lemma TryRefines(t: Tables, l: Ledger, c: Clocks, code: Token, later: Clocks)
    requires Refines(t, l, c) && c.now <= later.now && c.wall <= later.wall
    ensures Refines(t.(codes := Without(t.codes, code)), l + [Tried(code)], later)
  {
    var f := Tried(code);
    OneMore(l, f);
    forall x ensures CodeAgrees(Lookup(Without(t.codes, code), x), PendingCode(l + [f], x), later.now) {
      assert CodeAgrees(Lookup(t.codes, x), PendingCode(l, x), c.now);
    }
    var d := OnDisk(t.file);
    TimePasses(t.access, l, c.wall, later.wall);
    TimePasses(d.access, l, c.wall, later.wall);
    CodeFactKeepsTokens(t, l, later.wall, f);
    CodeFactKeepsTokens(t.(refresh := d.refresh, access := d.access), l, later.wall, f);
  }

  lemma GrantRefines(t: Tables, l: Ledger, c: Clocks, f: Fact)
    requires Refines(t, l, c) && f.Granted?
    ensures Refines(Save(t.(refresh := t.refresh[f.refresh := f.client],
                            access := t.access[f.access := AccessEntry(f.client, f.wall)])), l + [f], c)
  {
    OneMore(l, f);
    TokenFactKeepsCodes(t.codes, l, c.now, f);
    var refresh', access' := t.refresh[f.refresh := f.client], t.access[f.access := AccessEntry(f.client, f.wall)];
    forall r ensures Lookup(refresh', r) == LiveRefresh(l + [f], r) {
      assert Lookup(t.refresh, r) == LiveRefresh(l, r);
    }
    forall a ensures AccessAgrees(Lookup(access', a), UnrevokedAccess(l + [f], a), c.wall) {
      assert AccessAgrees(Lookup(t.access, a), UnrevokedAccess(l, a), c.wall);
    }
  }

  lemma ExchangeRefines(t: Tables, l: Ledger, c: Clocks, op: Op)
    requires Refines(t, l, c) && Ticks(c, op) && op.Exchange?
    ensures Exec(t, op).1 == SpecExec(l, op).1
    ensures Refines(Exec(t, op).0, SpecExec(l, op).0, After(c, op))
  {
    var used := t.(codes := Without(t.codes, op.code));
    assert CodeAgrees(Lookup(t.codes, op.code), PendingCode(l, op.code), c.now);
    TryRefines(t, l, c, op.code, Clocks(op.now, op.wall));
    assert op.code !in t.codes ==> used == t;
    if SpecExec(l, op).1.Pair? {
      var f := Granted(op.code, op.client, op.now, op.wall, op.access, op.refresh);
      GrantRefines(used, l + [Tried(op.code)], Clocks(op.now, op.wall), f);
    }
  }

  lemma RefreshRefines(t: Tables, l: Ledger, c: Clocks, op: Op)
    requires Refines(t, l, c) && Ticks(c, op) && op.Refresh?
    ensures Exec(t, op).1 == SpecExec(l, op).1
    ensures Refines(Exec(t, op).0, SpecExec(l, op).0, After(c, op))
  {
    TimePasses(t.access, l, c.wall, op.wall);
    TimePasses(OnDisk(t.file).access, l, c.wall, op.wall);
    assert Lookup(t.refresh, op.refresh) == LiveRefresh(l, op.refresh);
    if SpecExec(l, op).1.Access? {
      var f := Renewed(t.refresh[op.refresh], op.wall, op.access);
      OneMore(l, f);
      TokenFactKeepsCodes(t.codes, l, c.now, f);
      var access' := t.access[op.access := AccessEntry(f.client, op.wall)];
      forall r ensures Lookup(t.refresh, r) == LiveRefresh(l + [f], r) {
        assert Lookup(t.refresh, r) == LiveRefresh(l, r);
      }
      forall a ensures AccessAgrees(Lookup(access', a), UnrevokedAccess(l + [f], a), op.wall) {
        assert AccessAgrees(Lookup(t.access, a), UnrevokedAccess(l, a), op.wall);
      }
    }
  }

  lemma RevokeRefines(t: Tables, l: Ledger, c: Clocks, token: Token)
    requires Refines(t, l, c)
    ensures Refines(RevokeRefresh(t, token), SpecExec(l, Revoke(token)).0, c)
  {
    assert Lookup(t.refresh, token) == LiveRefresh(l, token);
    if token in t.refresh {
      var f := Revoked(t.refresh[token], token);
      var t' := RevokeRefresh(t, token);
      OneMore(l, f);
      TokenFactKeepsCodes(t.codes, l, c.now, f);
      forall r ensures Lookup(t'.refresh, r) == LiveRefresh(l + [f], r) {
        assert Lookup(t.refresh, r) == LiveRefresh(l, r);
      }
      forall a ensures AccessAgrees(Lookup(t'.access, a), UnrevokedAccess(l + [f], a), c.wall) {
        assert AccessAgrees(Lookup(t.access, a), UnrevokedAccess(l, a), c.wall);
      }
    }
  }

  lemma ValidateRefines(t: Tables, l: Ledger, c: Clocks, token: Token, wall: nat)
    requires Refines(t, l, c) && c.wall <= wall
    ensures ValidateAccess(t, token, wall).1 == SpecExec(l, Validate(token, wall)).1
    ensures Refines(ValidateAccess(t, token, wall).0, l, c.(wall := wall))
  {
    TimePasses(t.access, l, c.wall, wall);
    TimePasses(OnDisk(t.file).access, l, c.wall, wall);
    var t' := ValidateAccess(t, token, wall).0;
    forall a ensures AccessAgrees(Lookup(t'.access, a), UnrevokedAccess(l, a), wall) {
      assert AccessAgrees(Lookup(t.access, a), UnrevokedAccess(l, a), wall);
    }
    assert AccessAgrees(Lookup(t.access, token), UnrevokedAccess(l, token), wall);
  }

  lemma RestartRefines(t: Tables, l: Ledger, c: Clocks)
    requires Refines(t, l, c)
    ensures Refines(Reload(t), l + [Rebooted], c.(now := 0))
  {
    OneMore(l, Rebooted);
    var d := OnDisk(t.file);
    CodeFactKeepsTokens(t.(refresh := d.refresh, access := d.access), l, c.wall, Rebooted);
  }

  /** Sweeping, evicting and reloading cannot be observed: every call answers as the ledger does. */
  lemma StepRefines(t: Tables, l: Ledger, c: Clocks, op: Op)
    requires Refines(t, l, c) && Ticks(c, op)
    ensures Exec(t, op).1 == SpecExec(l, op).1
    ensures Refines(Exec(t, op).0, SpecExec(l, op).0, After(c, op))
  {
    match op
    case Issue(client, now, code) => IssueRefines(t, l, c, client, now, code);
    case Exchange(_, _, _, _, _, _) => ExchangeRefines(t, l, c, op);
    case Refresh(_, _, _, _) => RefreshRefines(t, l, c, op);
    case Revoke(token) => RevokeRefines(t, l, c, token);
    case Validate(token, wall) => ValidateRefines(t, l, c, token, wall);
    case Restart => RestartRefines(t, l, c);
  }

  // ---------------------------------------------------------------------------
  // Whole runs from a fresh install, through any number of restarts
  // ---------------------------------------------------------------------------

  function StateAfter(ops: seq<Op>): Tables {
    if ops == [] then FRESH_INSTALL else Exec(StateAfter(ops[..|ops| - 1]), ops[|ops| - 1]).0
  }

  function LedgerOf(ops: seq<Op>): Ledger {
    if ops == [] then [] else SpecExec(LedgerOf(ops[..|ops| - 1]), ops[|ops| - 1]).0
  }

  function ClocksAfter(ops: seq<Op>): Clocks {
    if ops == [] then Clocks(0, 0) else After(ClocksAfter(ops[..|ops| - 1]), ops[|ops| - 1])
  }

  /** The clocks never went back, except the monotonic one at a restart. */
  predicate WellTimed(ops: seq<Op>) {
    ops == [] || (WellTimed(ops[..|ops| - 1]) && Ticks(ClocksAfter(ops[..|ops| - 1]), ops[|ops| - 1]))
  }

  lemma {:induction false} RunRefines(ops: seq<Op>)
    requires WellTimed(ops)
    ensures Refines(StateAfter(ops), LedgerOf(ops), ClocksAfter(ops))
  {
    if ops != [] {
      var before, op := ops[..|ops| - 1], ops[|ops| - 1];
      RunRefines(before);
      StepRefines(StateAfter(before), LedgerOf(before), ClocksAfter(before), op);
    }
  }

  /** Every reply of every run is the ledger's reply. */
  lemma RunAnswersLikeLedger(ops: seq<Op>, op: Op)
    requires WellTimed(ops) && Ticks(ClocksAfter(ops), op)
    ensures Exec(StateAfter(ops), op).1 == SpecExec(LedgerOf(ops), op).1
  {
    RunRefines(ops);
    StepRefines(StateAfter(ops), LedgerOf(ops), ClocksAfter(ops), op);
  }

  /** The start of the next process behind a run is one more step of the run, so every result on runs, on tokens and
      on codes, holds of the new store. */
  method Reopen(ghost ops: seq<Op>, contents: Contents) returns (store: TokenStore)
    requires WellTimed(ops) && contents == FileOf(StateAfter(ops))
    ensures fresh(store) && WellTimed(ops + [Restart]) && store.View() == StateAfter(ops + [Restart])
    ensures Refines(store.View(), LedgerOf(ops + [Restart]), ClocksAfter(ops + [Restart]))
  {
    assert (ops + [Restart])[..|ops|] == ops;
    RunRefines(ops + [Restart]);
    store := new TokenStore(contents);
  }

  // ---------------------------------------------------------------------------
  // Access tokens
  // ---------------------------------------------------------------------------

  /** Fact i issued the token last, and no refresh token of its client was revoked since. */
  predicate IssuedUnrevoked(l: Ledger, token: Token, i: nat) {
    && i < |l| && AccessOf(l[i], token).Some?
    && forall j :: i < j < |l| ==>
         && AccessOf(l[j], token).None?
         && !(l[j].Revoked? && l[j].client == AccessOf(l[i], token).value.client)
  }

  lemma {:induction false} UnrevokedFound(l: Ledger, token: Token) returns (i: nat)
    requires UnrevokedAccess(l, token).Some?
    ensures IssuedUnrevoked(l, token, i) && UnrevokedAccess(l, token) == AccessOf(l[i], token)
  {
    i := |l| - 1;
    if AccessOf(l[i], token).None? {
      i := UnrevokedFound(l[..|l| - 1], token);
    }
  }

  lemma {:induction false} UnrevokedMeans(l: Ledger, token: Token, i: nat)
    requires IssuedUnrevoked(l, token, i)
    ensures UnrevokedAccess(l, token) == AccessOf(l[i], token)
  {
    if i < |l| - 1 {
      assert IssuedUnrevoked(l[..|l| - 1], token, i);
      UnrevokedMeans(l[..|l| - 1], token, i);
    }
  }

  /** In any run an access token validates exactly when it was issued at most 1800 seconds ago and no refresh
      token of its client was revoked since. */
  lemma AccessTokenValidity(ops: seq<Op>, token: Token, wall: nat)
    requires WellTimed(ops) && ClocksAfter(ops).wall <= wall
    ensures var l := LedgerOf(ops);
      Exec(StateAfter(ops), Validate(token, wall)).1 == Valid <==>
      exists i: nat :: IssuedUnrevoked(l, token, i) && wall <= AccessOf(l[i], token).value.issuedAt + 1800
  {
    var l := LedgerOf(ops);
    RunAnswersLikeLedger(ops, Validate(token, wall));
    if UnrevokedAccess(l, token).Some? {
      var i := UnrevokedFound(l, token);
    }
    forall i: nat | IssuedUnrevoked(l, token, i)
      ensures UnrevokedAccess(l, token) == AccessOf(l[i], token)
    {
      UnrevokedMeans(l, token, i);
    }
  }

  // ---------------------------------------------------------------------------
  // Authorization codes
  // ---------------------------------------------------------------------------

  /** The calls after which nothing is left of an earlier issue of the code. */
  predicate Spends(op: Op, code: Token) {
    match op
    case Issue(_, _, c) => c == code
    case Exchange(_, c, _, _, _, _) => c == code
    case Restart => true
    case _ => false
  }

  /** Call j issued the code, and it was neither tried nor issued again nor lost since. */
  predicate IssuedUntried(ops: seq<Op>, code: Token, j: nat) {
    && j < |ops| && ops[j].Issue? && ops[j].code == code
    && forall k :: j < k < |ops| ==> !Spends(ops[k], code)
  }

  lemma PendingStep(l: Ledger, op: Op, code: Token)
    ensures PendingCode(SpecExec(l, op).0, code) ==
      if op.Issue? && op.code == code then Some(CodeEntry(op.client, op.now))
      else if Spends(op, code) then None
      else PendingCode(l, code)
  {
    var l' := SpecExec(l, op).0;
    if |l'| == |l| + 2 {
      OneMore(l + [l'[|l|]], l'[|l| + 1]);
      OneMore(l, l'[|l|]);
    } else if |l'| == |l| + 1 {
      OneMore(l, l'[|l|]);
    }
  }

  lemma {:induction false} UntriedIsPending(ops: seq<Op>, code: Token, j: nat)
    requires IssuedUntried(ops, code, j)
    ensures PendingCode(LedgerOf(ops), code) == Some(CodeEntry(ops[j].client, ops[j].now))
  {
    var n := |ops| - 1;
    PendingStep(LedgerOf(ops[..n]), ops[n], code);
    if j < n {
      UntriedIsPending(ops[..n], code, j);
    }
  }

  lemma StaysUntried(ops: seq<Op>, op: Op, code: Token, j: nat)
    requires IssuedUntried(ops, code, j) && !Spends(op, code)
    ensures IssuedUntried(ops + [op], code, j)
  {
  }

  lemma {:induction false} PendingIsUntried(ops: seq<Op>, code: Token) returns (j: nat)
    requires PendingCode(LedgerOf(ops), code).Some?
    ensures IssuedUntried(ops, code, j)
  {
    var n := |ops| - 1;
    PendingStep(LedgerOf(ops[..n]), ops[n], code);
    if ops[n].Issue? && ops[n].code == code {
      j := n;
    } else {
      j := PendingIsUntried(ops[..n], code);
      StaysUntried(ops[..n], ops[n], code, j);
      assert ops[..n] + [ops[n]] == ops;
    }
  }

  /** An exchange is answered with a token pair exactly when its code was issued to the same client at most 60
      seconds before, by a call since which the code was neither tried nor issued again nor lost in a restart. */
  lemma CodeYieldsPair(ops: seq<Op>, op: Op)
    requires WellTimed(ops) && Ticks(ClocksAfter(ops), op) && op.Exchange?
    ensures var reply := Exec(StateAfter(ops), op).1;
      && (reply == Pair(op.access, op.refresh) || reply == Refused)
      && (reply.Pair? <==> exists j: nat :: IssuedUntried(ops, op.code, j)
                                         && ops[j].client == op.client && op.now <= ops[j].now + 60000000000)
  {
    RunAnswersLikeLedger(ops, op);
    if PendingCode(LedgerOf(ops), op.code).Some? {
      var j := PendingIsUntried(ops, op.code);
    }
    forall j: nat | IssuedUntried(ops, op.code, j)
      ensures PendingCode(LedgerOf(ops), op.code) == Some(CodeEntry(ops[j].client, ops[j].now))
    {
      UntriedIsPending(ops, op.code, j);
    }
  }

  lemma {:induction false} PrefixIsWellTimed(ops: seq<Op>, i: nat)
    requires WellTimed(ops) && i < |ops|
    ensures WellTimed(ops[..i]) && Ticks(ClocksAfter(ops[..i]), ops[i])
  {
    var n := |ops| - 1;
    if i < n {
      PrefixIsWellTimed(ops[..n], i);
      assert ops[..n][..i] == ops[..i];
    }
  }

  lemma UntriedIsBehind(ops: seq<Op>, code: Token, i: nat, j: nat)
    requires i < |ops| && Spends(ops[i], code) && !ops[i].Issue? && IssuedUntried(ops, code, j)
    ensures i < j
  {
  }

  /** One issued code yields at most one pair: between any exchange of a code and a later one that is answered with a
      pair, a call issued the code anew. */
  lemma OnePairPerIssue(ops: seq<Op>, i: nat, k: nat) returns (j: nat)
    requires WellTimed(ops) && i < k < |ops|
    requires ops[i].Exchange? && ops[k].Exchange? && ops[i].code == ops[k].code
    requires Exec(StateAfter(ops[..k]), ops[k]).1.Pair?
    ensures i < j < k && ops[j].Issue? && ops[j].code == ops[i].code
  {
    PrefixIsWellTimed(ops, k);
    CodeYieldsPair(ops[..k], ops[k]);
    j :| IssuedUntried(ops[..k], ops[k].code, j);
    UntriedIsBehind(ops[..k], ops[k].code, i, j);
  }

  /** The sweep removes exactly the codes that every later exchange would refuse. */
  lemma SweepIsExact(t: Tables, client: Client, now: nat, code: Token, other: Token)
    requires other in t.codes && other != code
    ensures other !in IssueCode(t, client, now, code).codes <==>
      forall c, later, wall, access, refresh | now <= later ::
        ExchangeCode(t, c, other, later, wall, access, refresh).1 == Refused
  {
    var e := t.codes[other];
    if other in IssueCode(t, client, now, code).codes {
      assert ExchangeCode(t, e.client, other, now, 0, "a", "r").1 == Pair("a", "r");
    }
  }

  // ---------------------------------------------------------------------------
  // Whoever can act can also renew
  // ---------------------------------------------------------------------------

  /** The client of every access token holds a live refresh token. */
  predicate Renewable(access: map<Token, AccessEntry>, refresh: map<Token, Client>) {
    forall a :: a in access ==> exists r :: r in refresh && refresh[r] == access[a].client
  }

  /** Every new refresh token differs from the live ones. */
  predicate FreshRefreshTokens(ops: seq<Op>) {
    ops == [] ||
    (FreshRefreshTokens(ops[..|ops| - 1]) &&
     (ops[|ops| - 1].Exchange? ==> ops[|ops| - 1].refresh !in StateAfter(ops[..|ops| - 1]).refresh))
  }

  /** In memory and after a reload, in every reachable store. */
  lemma {:induction false} EveryHolderCanRenew(ops: seq<Op>)
    requires FreshRefreshTokens(ops)
    ensures var t := StateAfter(ops);
      Renewable(t.access, t.refresh) && Renewable(OnDisk(t.file).access, OnDisk(t.file).refresh)
  {
    if ops != [] {
      var t, op := StateAfter(ops[..|ops| - 1]), ops[|ops| - 1];
      EveryHolderCanRenew(ops[..|ops| - 1]);
      forall a | a in Exec(t, op).0.access
        ensures exists r :: r in Exec(t, op).0.refresh && Exec(t, op).0.refresh[r] == Exec(t, op).0.access[a].client
      {
        var _ := WhoCanRenew(t, op, a);
      }
    }
  }

  lemma WhoCanRenew(t: Tables, op: Op, a: Token) returns (r: Token)
    requires Renewable(t.access, t.refresh) && Renewable(OnDisk(t.file).access, OnDisk(t.file).refresh)
    requires op.Exchange? ==> op.refresh !in t.refresh
    requires a in Exec(t, op).0.access
    ensures var t' := Exec(t, op).0; r in t'.refresh && t'.refresh[r] == t'.access[a].client
  {
    var t' := Exec(t, op).0;
    match op
    case Exchange(_, _, _, _, access, refresh) =>
      if t'.access != t.access && a == access {
        r := refresh;
      } else {
        r :| r in t.refresh && t.refresh[r] == t.access[a].client;
      }
    case Refresh(_, refresh, _, access) =>
      if t'.access != t.access && a == access {
        r := refresh;
      } else {
        r :| r in t.refresh && t.refresh[r] == t.access[a].client;
      }
    case Restart =>
      r :| r in t'.refresh && t'.refresh[r] == t'.access[a].client;
    case _ =>
      r :| r in t.refresh && t.refresh[r] == t.access[a].client;
  }
}
