// Authorization codes: issuing one, and any number of exchanges of it interleaved
// statement by statement (sections 4.1.2 and 4.1.3 of RFC 6749, section 4.6 of
// RFC 7636).
module AuthorizationCode {
  import opened Sql

  const SECOND := 1_000_000
  const CODE_TTL := 300 * SECOND

  type Hash = string

  // SHA-256 as lower-case hex, and as unpadded base64url for code challenges.
  datatype Digests = Digests(hex: string -> string, url: string -> string)

  datatype Client = Client(secretHash: Option<string>, confidential: bool, tenant: Uuid)

  datatype CodeRequest = CodeRequest(
    user: Uuid, client: string, redirect: string, scope: string, challenge: string, challengeMethod: string, nonce: string)

  datatype Origin = Origin(request: CodeRequest, at: int)

  datatype CodeRow = CodeRow(
    client: string, user: Uuid, redirect: string, scope: string,
    challenge: Option<string>, challengeMethod: Option<string>, nonce: Option<string>, expires: int, used: bool)

  datatype ExchangeRequest = ExchangeRequest(code: string, client: string, redirect: string, verifier: string, secret: string)

  datatype Reason = InvalidGrant | InvalidClient | PkceRequired | NoUser | NotAMember | NotPersisted

  datatype Pc =
    | Loaded(row: CodeRow)
    | Claimed(row: CodeRow)
    | Verified(row: CodeRow)
    | ClientOk(row: CodeRow)
    | UserOk(row: CodeRow)
    | TenantOk(row: CodeRow, tenant: Uuid)
    | MemberOk(row: CodeRow, tenant: Uuid)
    | Issued(row: CodeRow, tenant: Uuid)
    | Failed(reason: Reason)

  datatype Exchange = Exchange(request: ExchangeRequest, hash: Hash, presentedAt: int, pc: Pc)

  // users holds every identity with a row, the soft-deleted ones in deleted included.
  // origins, claimant, tested and granted are history: the request behind each
  // code, who claimed it, and how often a verifier was tested against it and a
  // token pair issued for it.
  datatype Sys = Sys(
    now: int,
    codes: map<Hash, CodeRow>, clients: map<string, Client>,
    users: set<Uuid>, deleted: set<Uuid>, members: set<(Uuid, Uuid)>,
    exchanges: map<nat, Exchange>,
    origins: map<Hash, Origin>, claimant: map<Hash, nat>, tested: multiset<Hash>, granted: multiset<Hash>)

  datatype Event =
    | Tick(d: nat)
    | Register(name: string, client: Client)
    | World(users: set<Uuid>, members: set<(Uuid, Uuid)>)      // enrolment, removal, hard deletion
    | SoftDelete(user: Uuid)
    | Restore(user: Uuid)
    | CreateCode(hash: Hash, wanted: CodeRequest)
    | Present(id: nat, request: ExchangeRequest)
    | Claim(id: nat)
    | Verify(id: nat)
    | Read(id: nat)                    // the next query: client, user, tenant, membership
    | Issue(id: nat)

  // ── Pieces of the handlers ────────────────────────────────

  predicate VerifyPkce(c: Digests, challenge: string, challengeMethod: string, verifier: string) {
    if challengeMethod == "S256" then c.url(verifier) == challenge
    else if challengeMethod == "plain" || challengeMethod == "" then verifier == challenge
    else false
  }

  predicate HasPkce(row: CodeRow) {
    row.challenge.Some? && row.challenge.value != ""
  }

  // A method that was not stored is taken to be S256.
  predicate PkceOk(c: Digests, row: CodeRow, verifier: string) {
    HasPkce(row) ==> VerifyPkce(c, Coalesce(row.challenge, ""), Coalesce(row.challengeMethod, "S256"), verifier)
  }

  function StoredCode(r: CodeRequest, now: int): CodeRow {
    CodeRow(r.client, r.user, r.redirect, r.scope,
      Nullif(r.challenge), Nullif(r.challengeMethod), Nullif(r.nonce), now + CODE_TTL, false)
  }

  function ClientCheck(c: Digests, clients: map<string, Client>, row: CodeRow, secret: string): (pc: Pc)
    ensures pc.Failed? || pc == ClientOk(row)
  {
    if row.client !in clients then Failed(InvalidClient)
    else
      var client := clients[row.client];
      if client.confidential then
        if client.secretHash == Some(c.hex(secret)) then ClientOk(row) else Failed(InvalidClient)
      else if HasPkce(row) then ClientOk(row)
      else Failed(PkceRequired)
  }

  function At(s: Sys, id: nat, pc: Pc): Sys
    requires id in s.exchanges
  {
    s.(exchanges := s.exchanges[id := s.exchanges[id].(pc := pc)])
  }

  // Only for a member of the client's organization.
  function CreateCodeStep(s: Sys, hash: Hash, wanted: CodeRequest): Sys {
    if hash in s.codes || wanted.client !in s.clients
       || (wanted.user, s.clients[wanted.client].tenant) !in s.members then s
    else s.(codes := s.codes[hash := StoredCode(wanted, s.now)], origins := s.origins[hash := Origin(wanted, s.now)])
  }

  function FirstChecks(s: Sys, hash: Hash, request: ExchangeRequest): (pc: Pc)
    ensures pc.Failed? || pc.Loaded?
  {
    if hash !in s.codes then Failed(InvalidGrant)
    else
      var row := s.codes[hash];
      if row.used || row.expires < s.now || row.client != request.client || row.redirect != request.redirect
      then Failed(InvalidGrant) else Loaded(row)
  }

  function PresentStep(c: Digests, s: Sys, id: nat, request: ExchangeRequest): (s': Sys)
    ensures id in s'.exchanges && s'.exchanges == s.exchanges[id := s'.exchanges[id]]
    ensures id !in s.exchanges ==> s'.exchanges[id].pc.Loaded? || s'.exchanges[id].pc.Failed?
    ensures id in s.exchanges ==> s' == s
  {
    if id in s.exchanges then s
    else
      var hash := c.hex(request.code);
      s.(exchanges := s.exchanges[id := Exchange(request, hash, s.now, FirstChecks(s, hash, request))])
  }

  // UPDATE ... SET used = true WHERE code_hash = $1 AND used = false, counted.
  function ClaimStep(s: Sys, id: nat): (s': Sys)
    requires id in s.exchanges && s.exchanges[id].pc.Loaded?
    ensures id in s'.exchanges && s'.exchanges == s.exchanges[id := s'.exchanges[id]]
    ensures s'.exchanges[id].pc.Claimed? || s'.exchanges[id].pc.Failed?
  {
    var x := s.exchanges[id];
    if x.hash in s.codes && !s.codes[x.hash].used
    then At(s.(codes := s.codes[x.hash := s.codes[x.hash].(used := true)], claimant := s.claimant[x.hash := id]),
            id, Claimed(x.pc.row))
    else At(s, id, Failed(InvalidGrant))
  }

  function VerifyStep(c: Digests, s: Sys, id: nat): (s': Sys)
    requires id in s.exchanges && s.exchanges[id].pc.Claimed?
    ensures id in s'.exchanges && s'.exchanges == s.exchanges[id := s'.exchanges[id]]
    ensures s'.exchanges[id].pc.Verified? || s'.exchanges[id].pc.Failed?
  {
    var x := s.exchanges[id];
    var pc := if PkceOk(c, x.pc.row, x.request.verifier) then Verified(x.pc.row) else Failed(InvalidGrant);
    At(s.(tested := if HasPkce(x.pc.row) then s.tested + multiset{x.hash} else s.tested), id, pc)
  }

  // The reads between the verification and the issue.
  function ReadStep(c: Digests, s: Sys, x: Exchange): Pc {
    match x.pc
    case Verified(row) => ClientCheck(c, s.clients, row, x.request.secret)
    case ClientOk(row) => if row.user in s.users then UserOk(row) else Failed(NoUser)
    case UserOk(row) =>
      if row.client in s.clients then TenantOk(row, s.clients[row.client].tenant) else Failed(InvalidClient)
    case TenantOk(row, tenant) => if (row.user, tenant) in s.members then MemberOk(row, tenant) else Failed(NotAMember)
    case _ => x.pc
  }

  function IssueStep(s: Sys, id: nat): (s': Sys)
    requires id in s.exchanges && s.exchanges[id].pc.MemberOk?
    ensures id in s'.exchanges && s'.exchanges == s.exchanges[id := s'.exchanges[id]]
    ensures var p, p' := s.exchanges[id].pc, s'.exchanges[id].pc; p'.Failed? || p' == Issued(p.row, p.tenant)
  {
    var p := s.exchanges[id].pc;
    if p.row.user in s.users
    then At(s.(granted := s.granted + multiset{s.exchanges[id].hash}), id, Issued(p.row, p.tenant))
    else At(s, id, Failed(NotPersisted))
  }

  function Step(c: Digests, s: Sys, e: Event): Sys {
    match e
    case Tick(d) => s.(now := s.now + d)
    case Register(name, client) => if name in s.clients then s else s.(clients := s.clients[name := client])
    case World(users, members) => s.(users := users, members := members)
    case SoftDelete(user) => s.(deleted := s.deleted + {user})
    case Restore(user) => s.(deleted := s.deleted - {user})
    case CreateCode(hash, wanted) => CreateCodeStep(s, hash, wanted)
    case Present(id, request) => PresentStep(c, s, id, request)
    case Claim(id) => if id in s.exchanges && s.exchanges[id].pc.Loaded? then ClaimStep(s, id) else s
    case Verify(id) => if id in s.exchanges && s.exchanges[id].pc.Claimed? then VerifyStep(c, s, id) else s
    case Read(id) => if id in s.exchanges then At(s, id, ReadStep(c, s, s.exchanges[id])) else s
    case Issue(id) => if id in s.exchanges && s.exchanges[id].pc.MemberOk? then IssueStep(s, id) else s
  }

  function Run(c: Digests, s: Sys, events: seq<Event>): Sys
    decreases |events|
  {
    if events == [] then s else Run(c, Step(c, s, events[0]), events[1..])
  }

  // ── Invariant ─────────────────────────────────────────────

  // How far an exchange has come; a failed one is nowhere.
  function Stage(pc: Pc): nat {
    match pc
    case Failed(_) => 0
    case Loaded(_) => 1
    case Claimed(_) => 2
    case Verified(_) => 3
    case ClientOk(_) => 4
    case UserOk(_) => 5
    case TenantOk(_, _) => 6
    case MemberOk(_, _) => 7
    case Issued(_, _) => 8
  }

  predicate SecretProved(c: Digests, client: Client, secret: string) {
    client.confidential ==> client.secretHash == Some(c.hex(secret))
  }

  // The row an exchange holds is the code's, up to its used mark, and what the
  // checks behind it have established still stands.
  ghost predicate RowOk(c: Digests, s: Sys, x: Exchange, row: CodeRow) {
    && x.hash == c.hex(x.request.code) && x.hash in s.codes && row.(used := true) == s.codes[x.hash].(used := true)
    && row.client == x.request.client && row.redirect == x.request.redirect && x.presentedAt <= row.expires
  }

  ghost predicate ClaimOk(s: Sys, id: nat, x: Exchange) {
    && (Stage(x.pc) >= 2 ==> x.hash in s.claimant && s.claimant[x.hash] == id)
    && (Stage(x.pc) == 2 ==> s.tested[x.hash] == 0)
    && (2 <= Stage(x.pc) < 8 ==> s.granted[x.hash] == 0)
    && (Stage(x.pc) == 8 ==> s.granted[x.hash] == 1)
  }

  ghost predicate ChecksOk(c: Digests, s: Sys, x: Exchange) {
    && (Stage(x.pc) >= 3 ==> PkceOk(c, x.pc.row, x.request.verifier))
    && (Stage(x.pc) >= 4 ==>
      && x.pc.row.client in s.clients
      && SecretProved(c, s.clients[x.pc.row.client], x.request.secret)
      && (!s.clients[x.pc.row.client].confidential ==> HasPkce(x.pc.row)))
    && (Stage(x.pc) >= 6 ==> x.pc.row.client in s.clients && x.pc.tenant == s.clients[x.pc.row.client].tenant)
  }

  ghost predicate ExchangeOk(c: Digests, s: Sys, id: nat, x: Exchange) {
    (Stage(x.pc) >= 1 ==> RowOk(c, s, x, x.pc.row)) && ClaimOk(s, id, x) && ChecksOk(c, s, x)
  }

  // The code is as its request asked, and everything is counted once at most.
  ghost predicate CodeOk(s: Sys, h: Hash) {
    && (h in s.codes <==> h in s.origins)
    && (h in s.codes ==> s.codes[h].(used := false) == StoredCode(s.origins[h].request, s.origins[h].at))
    && (h in s.claimant <==> h in s.codes && s.codes[h].used)
    && (h !in s.claimant ==> s.tested[h] == 0 && s.granted[h] == 0)
    && s.tested[h] <= 1 && s.granted[h] <= 1
  }

  ghost predicate Inv(c: Digests, s: Sys) {
    && (forall h: Hash :: CodeOk(s, h))
    && (forall id | id in s.exchanges :: ExchangeOk(c, s, id, s.exchanges[id]))
  }

  lemma FreshServerIsConsistent(c: Digests, s: Sys)
    requires s.codes == map[] && s.exchanges == map[] && s.origins == map[] && s.claimant == map[]
    requires s.tested == multiset{} && s.granted == multiset{}
    ensures Inv(c, s)
  {
  }

  // ── Preservation ──────────────────────────────────────────

  // Nothing is lost, and only the touched codes change.
  ghost predicate Frame(s: Sys, s': Sys, touched: set<Hash>) {
    && (forall h | h in s.codes :: h in s'.codes && s'.codes[h].(used := true) == s.codes[h].(used := true))
    && (forall n | n in s.clients :: n in s'.clients && s'.clients[n] == s.clients[n])
    && (forall h: Hash | h !in touched :: SameCode(s, s', h))
  }

  ghost predicate SameCode(s: Sys, s': Sys, h: Hash) {
    && (h in s'.codes <==> h in s.codes) && (h in s.codes ==> s'.codes[h] == s.codes[h])
    && (h in s'.origins <==> h in s.origins) && (h in s.origins ==> s'.origins[h] == s.origins[h])
    && (h in s'.claimant <==> h in s.claimant) && (h in s.claimant ==> s'.claimant[h] == s.claimant[h])
    && s'.tested[h] == s.tested[h] && s'.granted[h] == s.granted[h]
  }

  // An exchange no step moves keeps what it has, unless it holds the claim on a
  // touched code.
  lemma UnmovedKept(c: Digests, s: Sys, s': Sys, touched: set<Hash>, id: nat, x: Exchange)
    requires ExchangeOk(c, s, id, x) && Frame(s, s', touched) && (Stage(x.pc) < 2 || x.hash !in touched)
    ensures ExchangeOk(c, s', id, x)
  {
  }

  ghost predicate Unmoved(s: Sys, s': Sys, touched: set<Hash>, id: nat)
    requires id in s'.exchanges
  {
    var x := s'.exchanges[id];
    id in s.exchanges && x == s.exchanges[id] && (Stage(x.pc) < 2 || x.hash !in touched)
  }

  lemma FramedKeepsInvariant(c: Digests, s: Sys, s': Sys, touched: set<Hash>)
    requires Inv(c, s) && Frame(s, s', touched) && forall h | h in touched :: CodeOk(s', h)
    requires forall id | id in s'.exchanges ::
               Unmoved(s, s', touched, id) || ExchangeOk(c, s', id, s'.exchanges[id])
    ensures Inv(c, s')
  {
    hide ExchangeOk;
    forall h: Hash
      ensures CodeOk(s', h)
    {
      assert CodeOk(s, h);
      assert h !in touched ==> SameCode(s, s', h);
    }
    forall id | id in s'.exchanges
      ensures ExchangeOk(c, s', id, s'.exchanges[id])
    {
      if Unmoved(s, s', touched, id) {
        assert ExchangeOk(c, s, id, s.exchanges[id]);
        UnmovedKept(c, s, s', touched, id, s.exchanges[id]);
      }
    }
  }

  // At most one exchange is past the claim of a code.
  lemma ClaimIsSole(c: Digests, s: Sys, id: nat, q: nat)
    requires Inv(c, s) && id in s.exchanges && q in s.exchanges && s.exchanges[id].hash == s.exchanges[q].hash
    requires Stage(s.exchanges[id].pc) >= 2 && Stage(s.exchanges[q].pc) >= 2
    ensures id == q
  {
  }

  lemma CreateCodeFrame(s: Sys, hash: Hash, wanted: CodeRequest)
    ensures Frame(s, CreateCodeStep(s, hash, wanted), {hash})
    ensures CodeOk(s, hash) ==> CodeOk(CreateCodeStep(s, hash, wanted), hash)
  {
  }

  lemma CreateCodeKeepsInvariant(c: Digests, s: Sys, hash: Hash, wanted: CodeRequest)
    requires Inv(c, s)
    ensures Inv(c, CreateCodeStep(s, hash, wanted))
  {
    hide Frame, PkceOk, ChecksOk;
    var s' := CreateCodeStep(s, hash, wanted);
    CreateCodeFrame(s, hash, wanted);
    if s' != s {
      assert CodeOk(s, hash);
      forall id | id in s'.exchanges
        ensures Unmoved(s, s', {hash}, id)
      {
        assert ExchangeOk(c, s, id, s.exchanges[id]);
      }
      hide CodeOk, ExchangeOk;
      FramedKeepsInvariant(c, s, s', {hash});
    }
  }

  lemma PresentKeepsInvariant(c: Digests, s: Sys, id: nat, request: ExchangeRequest)
    requires Inv(c, s)
    ensures Inv(c, PresentStep(c, s, id, request))
  {
    hide PkceOk, ClientCheck;
    var s' := PresentStep(c, s, id, request);
    if id !in s.exchanges {
      assert ExchangeOk(c, s', id, s'.exchanges[id]);
      assert forall q | q in s.exchanges :: Unmoved(s, s', {}, q);
      FramedKeepsInvariant(c, s, s', {});
    }
  }

  lemma ClaimFrame(s: Sys, id: nat)
    requires id in s.exchanges && s.exchanges[id].pc.Loaded?
    ensures Frame(s, ClaimStep(s, id), {s.exchanges[id].hash})
  {
  }

  lemma ClaimMoves(c: Digests, s: Sys, id: nat)
    requires id in s.exchanges && s.exchanges[id].pc.Loaded?
    requires ExchangeOk(c, s, id, s.exchanges[id]) && CodeOk(s, s.exchanges[id].hash)
    ensures ExchangeOk(c, ClaimStep(s, id), id, ClaimStep(s, id).exchanges[id])
    ensures CodeOk(ClaimStep(s, id), s.exchanges[id].hash)
  {
  }

  lemma ClaimKeepsInvariant(c: Digests, s: Sys, id: nat)
    requires Inv(c, s) && id in s.exchanges && s.exchanges[id].pc.Loaded?
    ensures Inv(c, ClaimStep(s, id))
  {
    hide Frame, PkceOk, ChecksOk;
    var s' := ClaimStep(s, id);
    var h := s.exchanges[id].hash;
    assert ExchangeOk(c, s, id, s.exchanges[id]) && CodeOk(s, h);
    ClaimFrame(s, id);
    ClaimMoves(c, s, id);
    if s.codes[h].used {
      FailedClaimKeepsInvariant(c, s, id);
    } else {
      forall q | q in s.exchanges && q != id
        ensures Unmoved(s, s', {h}, q)
      {
        assert ExchangeOk(c, s, q, s.exchanges[q]);
      }
      hide CodeOk, ExchangeOk;
      FramedKeepsInvariant(c, s, s', {h});
    }
  }

  lemma FailedClaimKeepsInvariant(c: Digests, s: Sys, id: nat)
    requires Inv(c, s) && id in s.exchanges
    ensures Inv(c, At(s, id, Failed(InvalidGrant)))
  {
    var s' := At(s, id, Failed(InvalidGrant));
    assert ExchangeOk(c, s', id, s'.exchanges[id]);
    assert forall q | q in s.exchanges && q != id :: Unmoved(s, s', {}, q);
    FramedKeepsInvariant(c, s, s', {});
  }

  lemma VerifyFrame(c: Digests, s: Sys, id: nat)
    requires id in s.exchanges && s.exchanges[id].pc.Claimed?
    ensures Frame(s, VerifyStep(c, s, id), {s.exchanges[id].hash})
  {
  }

  lemma VerifyMoves(c: Digests, s: Sys, id: nat)
    requires id in s.exchanges && s.exchanges[id].pc.Claimed?
    requires ExchangeOk(c, s, id, s.exchanges[id]) && CodeOk(s, s.exchanges[id].hash)
    ensures ExchangeOk(c, VerifyStep(c, s, id), id, VerifyStep(c, s, id).exchanges[id])
    ensures CodeOk(VerifyStep(c, s, id), s.exchanges[id].hash)
  {
  }

  lemma VerifyKeepsInvariant(c: Digests, s: Sys, id: nat)
    requires Inv(c, s) && id in s.exchanges && s.exchanges[id].pc.Claimed?
    ensures Inv(c, VerifyStep(c, s, id))
  {
    hide Frame, CodeOk, ExchangeOk, PkceOk, HasPkce;
    var h := s.exchanges[id].hash;
    assert ExchangeOk(c, s, id, s.exchanges[id]) && CodeOk(s, h);
    VerifyFrame(c, s, id);
    VerifyMoves(c, s, id);
    SoleStays(c, s, VerifyStep(c, s, id), id);
    FramedKeepsInvariant(c, s, VerifyStep(c, s, id), {h});
  }

  lemma SoleStays(c: Digests, s: Sys, s': Sys, id: nat)
    requires Inv(c, s) && id in s.exchanges && Stage(s.exchanges[id].pc) >= 2
    requires s'.exchanges.Keys == s.exchanges.Keys
    requires forall q | q in s.exchanges && q != id :: s'.exchanges[q] == s.exchanges[q]
    ensures forall q | q in s.exchanges && q != id :: Unmoved(s, s', {s.exchanges[id].hash}, q)
  {
  }

  lemma ReadMoves(c: Digests, s: Sys, id: nat)
    requires id in s.exchanges && ExchangeOk(c, s, id, s.exchanges[id])
    ensures var s' := At(s, id, ReadStep(c, s, s.exchanges[id])); ExchangeOk(c, s', id, s'.exchanges[id])
  {
    hide PkceOk, HasPkce;
  }

  lemma ReadKeepsInvariant(c: Digests, s: Sys, id: nat)
    requires Inv(c, s) && id in s.exchanges
    ensures Inv(c, At(s, id, ReadStep(c, s, s.exchanges[id])))
  {
    hide ReadStep, ExchangeOk, CodeOk;
    var s' := At(s, id, ReadStep(c, s, s.exchanges[id]));
    ReadMoves(c, s, id);
    assert forall q | q in s.exchanges && q != id :: Unmoved(s, s', {}, q);
    FramedKeepsInvariant(c, s, s', {});
  }

  lemma IssueFrame(s: Sys, id: nat)
    requires id in s.exchanges && s.exchanges[id].pc.MemberOk?
    ensures Frame(s, IssueStep(s, id), {s.exchanges[id].hash})
  {
  }

  lemma IssueMoves(c: Digests, s: Sys, id: nat)
    requires id in s.exchanges && s.exchanges[id].pc.MemberOk?
    requires ExchangeOk(c, s, id, s.exchanges[id]) && CodeOk(s, s.exchanges[id].hash)
    ensures ExchangeOk(c, IssueStep(s, id), id, IssueStep(s, id).exchanges[id])
    ensures CodeOk(IssueStep(s, id), s.exchanges[id].hash)
  {
    hide PkceOk, HasPkce;
  }

  lemma IssueKeepsInvariant(c: Digests, s: Sys, id: nat)
    requires Inv(c, s) && id in s.exchanges && s.exchanges[id].pc.MemberOk?
    ensures Inv(c, IssueStep(s, id))
  {
    hide Frame, CodeOk, ExchangeOk;
    var h := s.exchanges[id].hash;
    assert ExchangeOk(c, s, id, s.exchanges[id]) && CodeOk(s, h);
    IssueFrame(s, id);
    IssueMoves(c, s, id);
    SoleStays(c, s, IssueStep(s, id), id);
    FramedKeepsInvariant(c, s, IssueStep(s, id), {h});
  }

  lemma StepKeepsInvariant(c: Digests, s: Sys, e: Event)
    requires Inv(c, s)
    ensures Inv(c, Step(c, s, e))
  {
    hide CreateCodeStep, PresentStep, ClaimStep, VerifyStep, ReadStep, IssueStep, CodeOk, ExchangeOk;
    match e
    case Tick(_) => WorldKeepsInvariant(c, s, Step(c, s, e));
    case Register(_, _) => WorldKeepsInvariant(c, s, Step(c, s, e));
    case World(_, _) => WorldKeepsInvariant(c, s, Step(c, s, e));
    case SoftDelete(_) => WorldKeepsInvariant(c, s, Step(c, s, e));
    case Restore(_) => WorldKeepsInvariant(c, s, Step(c, s, e));
    case CreateCode(hash, wanted) => CreateCodeKeepsInvariant(c, s, hash, wanted);
    case Present(id, request) => PresentKeepsInvariant(c, s, id, request);
    case Claim(id) => if id in s.exchanges && s.exchanges[id].pc.Loaded? { ClaimKeepsInvariant(c, s, id); }
    case Verify(id) => if id in s.exchanges && s.exchanges[id].pc.Claimed? { VerifyKeepsInvariant(c, s, id); }
    case Read(id) => if id in s.exchanges { ReadKeepsInvariant(c, s, id); }
    case Issue(id) => if id in s.exchanges && s.exchanges[id].pc.MemberOk? { IssueKeepsInvariant(c, s, id); }
  }

  lemma WorldKeepsInvariant(c: Digests, s: Sys, s': Sys)
    requires Inv(c, s)
    requires s' == s.(now := s'.now, users := s'.users, deleted := s'.deleted, members := s'.members, clients := s'.clients)
    requires forall n | n in s.clients :: n in s'.clients && s'.clients[n] == s.clients[n]
    ensures Inv(c, s')
  {
    assert forall q | q in s.exchanges :: Unmoved(s, s', {}, q);
    FramedKeepsInvariant(c, s, s', {});
  }

  lemma {:induction false} EveryRunIsConsistent(c: Digests, s: Sys, events: seq<Event>)
    requires Inv(c, s)
    ensures Inv(c, Run(c, s, events))
    decreases |events|
  {
    if events != [] {
      StepKeepsInvariant(c, s, events[0]);
      EveryRunIsConsistent(c, Step(c, s, events[0]), events[1..]);
    }
  }

  // ── What an exchange proves ───────────────────────────────

  predicate BothIssued(s: Sys, id: nat, q: nat) {
    && id in s.exchanges && s.exchanges[id].pc.Issued?
    && q in s.exchanges && s.exchanges[q].pc.Issued?
  }

  // Whatever the interleaving: a code yields at most one token pair and at most
  // one verifier is ever tested against it.
  lemma CodesAreSingleUse(c: Digests, s: Sys, events: seq<Event>, hash: Hash, id: nat, q: nat)
    requires Inv(c, s)
    ensures var end := Run(c, s, events);
            && end.tested[hash] <= 1 && end.granted[hash] <= 1
            && (BothIssued(end, id, q) && end.exchanges[id].hash == end.exchanges[q].hash ==> id == q)
  {
    EveryRunIsConsistent(c, s, events);
    var end := Run(c, s, events);
    assert CodeOk(end, hash);
    if BothIssued(end, id, q) && end.exchanges[id].hash == end.exchanges[q].hash {
      ClaimIsSole(c, end, id, q);
    }
  }

  // What the issuing request asked of the verifier.
  predicate ChallengeMet(c: Digests, r: CodeRequest, verifier: string) {
    r.challenge != "" ==>
      if r.challengeMethod == "" || r.challengeMethod == "S256" then c.url(verifier) == r.challenge
      else r.challengeMethod == "plain" && verifier == r.challenge
  }

  // A pair is issued only for the client, redirect address and challenge of the
  // request the code was made for, within five minutes of it, to a client that
  // proved its secret or, without one, used a challenge, is bound to that client's
  // tenant, and comes with the scope and the nonce the request asked for.
  lemma IssuedForTheRequest(c: Digests, s: Sys, events: seq<Event>, id: nat)
    requires Inv(c, s)
    requires id in Run(c, s, events).exchanges && Run(c, s, events).exchanges[id].pc.Issued?
    ensures var end := Run(c, s, events);
            var x := end.exchanges[id];
            && x.hash == c.hex(x.request.code) && x.hash in end.origins
            && var origin := end.origins[x.hash];
               var asked := origin.request;
               && asked.client == x.request.client && asked.redirect == x.request.redirect
               && x.presentedAt <= origin.at + 5 * 60 * 1_000_000
               && ChallengeMet(c, asked, x.request.verifier)
               && asked.client in end.clients
               && var client := end.clients[asked.client];
                  && (client.confidential ==> client.secretHash == Some(c.hex(x.request.secret)))
                  && (!client.confidential ==> asked.challenge != "")
                  && x.pc.row.user == asked.user && x.pc.tenant == client.tenant
                  && x.pc.row.scope == asked.scope
                  && x.pc.row.nonce == (if asked.nonce == "" then None else Some(asked.nonce))
                  && end.granted[x.hash] == 1
  {
    EveryRunIsConsistent(c, s, events);
    var end := Run(c, s, events);
    hide Run, Step;
    assert ExchangeOk(c, end, id, end.exchanges[id]);
    assert CodeOk(end, end.exchanges[id].hash);
  }

  // A client that leaves the method out, as RFC 7636 section 4.3 allows for plain
  // challenges, is served exactly when its challenge is its own digest; the test by
  // itself would have taken no method to be `plain`.
  lemma OmittedMethodIsNotPlain(c: Digests, asked: CodeRequest, at: int, verifier: string)
    requires asked.challengeMethod == "" && asked.challenge != "" && verifier == asked.challenge
    ensures PkceOk(c, StoredCode(asked, at), verifier) <==> c.url(asked.challenge) == asked.challenge
    ensures VerifyPkce(c, asked.challenge, "", verifier) && VerifyPkce(c, asked.challenge, "plain", verifier)
  {
  }

  // A step moves the exchange it names and no other.
  lemma OthersStay(c: Digests, s: Sys, e: Event, id: nat)
    requires id in s.exchanges
    requires !((e.Claim? || e.Verify? || e.Read? || e.Issue?) && e.id == id)
    ensures id in Step(c, s, e).exchanges && Step(c, s, e).exchanges[id] == s.exchanges[id]
  {
  }

  predicate Admitted(pc: Pc) {
    pc.MemberOk? || pc.Issued?
  }

  // Being admitted takes the membership query, answered by a membership there
  // and then; afterwards an exchange keeps its user and tenant.
  lemma Admission(c: Digests, s: Sys, e: Event, id: nat)
    requires id in Step(c, s, e).exchanges && Admitted(Step(c, s, e).exchanges[id].pc)
    ensures id in s.exchanges
    ensures var pc, pc' := s.exchanges[id].pc, Step(c, s, e).exchanges[id].pc;
            && (Admitted(pc) || pc.TenantOk?) && pc.row == pc'.row && pc.tenant == pc'.tenant
            && (pc.TenantOk? ==> (pc.row.user, pc.tenant) in s.members)
  {
    hide ClaimStep, VerifyStep, IssueStep, PresentStep, StoredCode, ClientCheck;
    if id in s.exchanges && !((e.Claim? || e.Verify? || e.Read? || e.Issue?) && e.id == id) {
      OthersStay(c, s, e, id);
    }
  }

  // Every pair was preceded by a moment of its own exchange at which the user was
  // an active member of the tenant it is bound to.
  lemma {:induction false} IssuedToAMember(c: Digests, s: Sys, events: seq<Event>, id: nat) returns (k: nat)
    requires id !in s.exchanges || !Admitted(s.exchanges[id].pc)
    requires id in Run(c, s, events).exchanges && Admitted(Run(c, s, events).exchanges[id].pc)
    ensures k < |events|
    ensures var then0, end := Run(c, s, events[..k]), Run(c, s, events);
            && id in then0.exchanges && then0.exchanges[id].pc.TenantOk?
            && var pc := then0.exchanges[id].pc;
               pc.row == end.exchanges[id].pc.row && pc.tenant == end.exchanges[id].pc.tenant
               && (pc.row.user, pc.tenant) in then0.members
    decreases |events|
  {
    hide Step;
    var n := |events| - 1;
    RunSnoc(c, s, events[..n], events[n]);
    assert events[..n] + [events[n]] == events;
    var before := Run(c, s, events[..n]);
    Admission(c, before, events[n], id);
    if Admitted(before.exchanges[id].pc) {
      k := IssuedToAMember(c, s, events[..n], id);
      assert events[..n][..k] == events[..k];
    } else {
      k := n;
    }
  }

  lemma {:induction false} RunSnoc(c: Digests, s: Sys, events: seq<Event>, e: Event)
    ensures Run(c, s, events + [e]) == Step(c, Run(c, s, events), e)
    decreases |events|
  {
    hide Step;
    if events == [] {
      assert ([] + [e])[1..] == [];
    } else {
      assert (events + [e])[1..] == events[1..] + [e];
      RunSnoc(c, Step(c, s, events[0]), events[1..], e);
    }
  }

  // A pair needs its user to be there still at that very moment; each is counted, and
  // so is each test of a verifier.
  lemma PairNeedsTheUser(c: Digests, s: Sys, id: nat)
    requires id in s.exchanges && s.exchanges[id].pc.MemberOk?
    ensures var x, end := s.exchanges[id], Step(c, s, Issue(id));
            && id in end.exchanges && (end.exchanges[id].pc.Issued? <==> x.pc.row.user in s.users)
            && (x.pc.row.user !in s.users ==> end.exchanges[id].pc == Failed(NotPersisted))
            && end.granted[x.hash] == s.granted[x.hash] + (if x.pc.row.user in s.users then 1 else 0)
  {
  }

  lemma TestsAreCounted(c: Digests, s: Sys, id: nat)
    requires id in s.exchanges && s.exchanges[id].pc.Claimed?
    ensures var x, end := s.exchanges[id], Step(c, s, Verify(id));
            end.tested[x.hash] == s.tested[x.hash] + (if x.pc.row.challenge in {None, Some("")} then 0 else 1)
  {
  }

  // A challenge stored as the empty text asks for nothing, like none at all.
  lemma EmptyChallengeIsNone(c: Digests, row: CodeRow, verifier: string)
    requires row.challenge in {None, Some("")}
    ensures PkceOk(c, row, verifier) && !HasPkce(row)
  {
  }

  // A client keeps what it registered with first; restoring ends a soft deletion.
  lemma RegisteredOnce(c: Digests, s: Sys, name: string, client: Client, user: Uuid)
    ensures Step(c, s, Register(name, client)).clients ==
            if name in s.clients then s.clients else s.clients[name := client]
    ensures Step(c, Step(c, s, SoftDelete(user)), Restore(user)).deleted == s.deleted - {user}
  {
  }
}
