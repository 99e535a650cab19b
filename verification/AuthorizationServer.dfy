// The two calls about authorization codes, each on its own, against the tables.
module AuthorizationServer {
  import opened Sql
  import opened AuthorizationCode

  // The queries of an exchange after its claim, in order.
  function Reads(c: Digests, s: Sys, id: nat): Sys {
    Step(c, Step(c, Step(c, Step(c, s, Read(id)), Read(id)), Read(id)), Read(id))
  }

  // The steps of a call up to its claim, and after.
  function Presented(c: Digests, s: Sys, request: ExchangeRequest): Sys {
    Step(c, Step(c, s, Present(0, request)), Claim(0))
  }

  function Redeemed(c: Digests, s: Sys): Sys {
    Step(c, Reads(c, Step(c, s, Verify(0)), 0), Issue(0))
  }

  // One exchange on its own is the run of its steps.
  function Alone(c: Digests, s: Sys, request: ExchangeRequest): Sys {
    Redeemed(c, Presented(c, s, request))
  }

  lemma FailedRests(c: Digests, s: Sys, id: nat)
    requires id in s.exchanges && s.exchanges[id].pc.Failed?
    ensures Step(c, s, Claim(id)) == s && Step(c, s, Verify(id)) == s
    ensures Step(c, s, Read(id)) == s && Step(c, s, Issue(id)) == s
    ensures Reads(c, s, id) == s
  {
  }

  // What the queries answer, the tables standing still.
  function Answer(c: Digests, s: Sys, x: Exchange): Pc {
    var pc1 := ReadStep(c, s, x);
    var pc2 := ReadStep(c, s, x.(pc := pc1));
    var pc3 := ReadStep(c, s, x.(pc := pc2));
    ReadStep(c, s, x.(pc := pc3))
  }

  lemma ReadOnce(c: Digests, s: Sys, id: nat, pc: Pc)
    requires id in s.exchanges
    ensures Step(c, At(s, id, pc), Read(id)) == At(s, id, ReadStep(c, s, s.exchanges[id].(pc := pc)))
  {
  }

  lemma ReadsAnswer(c: Digests, s: Sys, id: nat)
    requires id in s.exchanges
    ensures Reads(c, s, id) == At(s, id, Answer(c, s, s.exchanges[id]))
  {
    hide Step, ReadStep;
    var x := s.exchanges[id];
    var pc1 := ReadStep(c, s, x);
    var pc2 := ReadStep(c, s, x.(pc := pc1));
    var pc3 := ReadStep(c, s, x.(pc := pc2));
    assert At(s, id, x.pc) == s;
    ReadOnce(c, s, id, x.pc);
    ReadOnce(c, s, id, pc1);
    ReadOnce(c, s, id, pc2);
    ReadOnce(c, s, id, pc3);
  }

  lemma IssueAnswer(c: Digests, s: Sys, id: nat, pc: Pc)
    requires id in s.exchanges
    ensures pc.MemberOk? && pc.row.user in s.users ==>
              Step(c, At(s, id, pc), Issue(id))
              == At(s.(granted := s.granted + multiset{s.exchanges[id].hash}), id, Issued(pc.row, pc.tenant))
    ensures pc.Failed? ==> Step(c, At(s, id, pc), Issue(id)) == At(s, id, pc)
  {
  }

  // What an exchange has to present for a code, and what has to hold of the world.
  predicate Deserves(c: Digests, s: Sys, request: ExchangeRequest) {
    var hash := c.hex(request.code);
    && hash in s.origins && hash in s.codes && !s.codes[hash].used
    && var asked := s.origins[hash].request;
       && asked.client == request.client && asked.redirect == request.redirect
       && s.now <= s.origins[hash].at + 5 * 60 * 1_000_000
       && ChallengeMet(c, asked, request.verifier)
       && asked.client in s.clients
       && var client := s.clients[asked.client];
          && SecretProved(c, client, request.secret)
          && (!client.confidential ==> asked.challenge != "")
          && asked.user in s.users && (asked.user, client.tenant) in s.members
  }

  // What the answer to a granted call carries.
  predicate AnswersRequest(pc: Pc, asked: CodeRequest) {
    && pc.Issued? && pc.row.user == asked.user && pc.row.client == asked.client && pc.row.scope == asked.scope
    && pc.row.nonce == (if asked.nonce == "" then None else Some(asked.nonce))
  }

  lemma StoredChallengeMeans(c: Digests, asked: CodeRequest, at: int, verifier: string)
    ensures PkceOk(c, StoredCode(asked, at), verifier) <==> ChallengeMet(c, asked, verifier)
    ensures HasPkce(StoredCode(asked, at)) <==> asked.challenge != ""
  {
  }

  // What a verified row of a code still lacks, if anything, in the order of the queries.
  function Lacking(c: Digests, s: Sys, row: CodeRow, secret: string): Option<Reason> {
    if row.client !in s.clients || !SecretProved(c, s.clients[row.client], secret) then Some(InvalidClient)
    else if !s.clients[row.client].confidential && !HasPkce(row) then Some(PkceRequired)
    else if row.user !in s.users then Some(NoUser)
    else if (row.user, s.clients[row.client].tenant) !in s.members then Some(NotAMember)
    else None
  }

  // The answer of the queries for a verified row.
  lemma AnswerExactly(c: Digests, s: Sys, x: Exchange, row: CodeRow)
    requires x.pc == Verified(row)
    ensures var lacking := Lacking(c, s, row, x.request.secret);
            Answer(c, s, x) ==
              if lacking.Some? then Failed(lacking.value) else MemberOk(row, s.clients[row.client].tenant)
  {
    hide HasPkce;
  }

  lemma RedeemedEnds(c: Digests, s: Sys, row: CodeRow)
    requires 0 in s.exchanges && s.exchanges[0].pc == Claimed(row)
    ensures var end, x := Redeemed(c, s), s.exchanges[0];
            var lacking := Lacking(c, s, row, x.request.secret);
            && end.codes == s.codes && 0 in end.exchanges
            && end.exchanges[0].pc ==
                 if !PkceOk(c, row, x.request.verifier) then Failed(InvalidGrant)
                 else if lacking.Some? then Failed(lacking.value)
                 else Issued(row, s.clients[row.client].tenant)
  {
    hide Reads, ReadStep, CreateCodeStep, IssueStep, PkceOk, HasPkce, Answer, SecretProved;
    var s3 := Step(c, s, Verify(0));
    if s3.exchanges[0].pc.Failed? {
      FailedRests(c, s3, 0);
    } else {
      ReadsAnswer(c, s3, 0);
      AnswerExactly(c, s3, s3.exchanges[0], row);
      IssueAnswer(c, s3, 0, Answer(c, s3, s3.exchanges[0]));
    }
  }

  // The code can be claimed: there, unused, in time and for this client and address.
  predicate Claimable(c: Digests, s: Sys, request: ExchangeRequest) {
    var hash := c.hex(request.code);
    && hash in s.origins && hash in s.codes && !s.codes[hash].used
    && s.origins[hash].request.client == request.client && s.origins[hash].request.redirect == request.redirect
    && s.now <= s.origins[hash].at + 5 * 60 * 1_000_000
  }

  lemma PresentedEnds(c: Digests, s: Sys, request: ExchangeRequest)
    requires Inv(c, s) && s.exchanges == map[]
    ensures var claimed := Presented(c, s, request);
            var hash := c.hex(request.code);
            && 0 in claimed.exchanges && claimed.exchanges[0].request == request
            && claimed.clients == s.clients && claimed.users == s.users && claimed.members == s.members
            && if Claimable(c, s, request) then
                 && claimed.codes == s.codes[hash := s.codes[hash].(used := true)]
                 && claimed.exchanges[0].pc == Claimed(StoredCode(s.origins[hash].request, s.origins[hash].at))
               else claimed.codes == s.codes && claimed.exchanges[0].pc == Failed(InvalidGrant)
  {
    var hash := c.hex(request.code);
    assert (hash in s.codes <==> hash in s.origins)
        && (hash in s.codes ==> s.codes[hash].(used := false) == StoredCode(s.origins[hash].request, s.origins[hash].at)) by {
      assert CodeOk(s, hash);
    }
    hide Inv, CodeOk;
    var s1 := PresentStep(c, s, 0, request);
    assert Presented(c, s, request) == if s1.exchanges[0].pc.Loaded? then ClaimStep(s1, 0) else s1 by {
      hide PresentStep, ClaimStep, StoredCode;
    }
    hide Presented, Step;
  }

  // What a call on its own comes to.
  lemma AloneEnds(c: Digests, s: Sys, request: ExchangeRequest)
    requires Inv(c, s) && s.exchanges == map[]
    ensures var end := Alone(c, s, request);
            var hash := c.hex(request.code);
            && 0 in end.exchanges
            && if !Claimable(c, s, request) then end.codes == s.codes && end.exchanges[0].pc == Failed(InvalidGrant)
               else
                 var row := StoredCode(s.origins[hash].request, s.origins[hash].at);
                 var lacking := Lacking(c, s, row, request.secret);
                 && end.codes == s.codes[hash := s.codes[hash].(used := true)]
                 && end.exchanges[0].pc ==
                      if !PkceOk(c, row, request.verifier) then Failed(InvalidGrant)
                      else if lacking.Some? then Failed(lacking.value)
                      else Issued(row, s.clients[row.client].tenant)
  {
    hide Inv, Reads, Presented, Redeemed, Step, PkceOk, HasPkce, SecretProved;
    PresentedEnds(c, s, request);
    var s2 := Presented(c, s, request);
    if Claimable(c, s, request) {
      RedeemedEnds(c, s2, s2.exchanges[0].pc.row);
    } else {
      RefusedRests(c, s2);
    }
  }

  lemma RefusedRests(c: Digests, s: Sys)
    requires 0 in s.exchanges && s.exchanges[0].pc.Failed?
    ensures Redeemed(c, s) == s
  {
    FailedRests(c, s, 0);
  }

  // A call on its own is granted a pair exactly when it deserves one.
  lemma ExchangeSucceedsExactly(c: Digests, s: Sys, request: ExchangeRequest)
    requires Inv(c, s) && s.exchanges == map[]
    ensures var end := Alone(c, s, request);
            && 0 in end.exchanges && (end.exchanges[0].pc.Issued? <==> Deserves(c, s, request))
            && (end.exchanges[0].pc.Issued? ==> AnswersRequest(end.exchanges[0].pc, s.origins[c.hex(request.code)].request))
  {
    AloneEnds(c, s, request);
    hide Alone, Inv, PkceOk, HasPkce, ChallengeMet, SecretProved;
    if Claimable(c, s, request) {
      var origin := s.origins[c.hex(request.code)];
      StoredChallengeMeans(c, origin.request, origin.at, request.verifier);
    }
  }

  // A call that can claim the code uses it up, whatever comes of it, and touches no
  // other; one that is refused is told the first thing that was wrong.
  lemma RefusedExactly(c: Digests, s: Sys, request: ExchangeRequest)
    requires Inv(c, s) && s.exchanges == map[]
    ensures var end := Alone(c, s, request);
            var hash := c.hex(request.code);
            && end.codes == (if Claimable(c, s, request) then s.codes[hash := s.codes[hash].(used := true)] else s.codes)
            && 0 in end.exchanges
            && (end.exchanges[0].pc.Failed? ==> end.exchanges[0].pc.reason == Refusal(c, s, request))
  {
    AloneEnds(c, s, request);
    hide Alone, Inv, PkceOk, HasPkce, ChallengeMet, SecretProved;
    if Claimable(c, s, request) {
      var origin := s.origins[c.hex(request.code)];
      StoredChallengeMeans(c, origin.request, origin.at, request.verifier);
    }
  }

  // What a refused call is told.
  function Refusal(c: Digests, s: Sys, request: ExchangeRequest): Reason {
    if !Claimable(c, s, request) then InvalidGrant
    else
      var asked := s.origins[c.hex(request.code)].request;
      if !ChallengeMet(c, asked, request.verifier) then InvalidGrant
      else if asked.client !in s.clients || !SecretProved(c, s.clients[asked.client], request.secret) then InvalidClient
      else if !s.clients[asked.client].confidential && asked.challenge == "" then PkceRequired
      else if asked.user !in s.users then NoUser
      else NotAMember
  }

  // From a server with nothing on it: a registered client's member gets a code, and
  // the right answer to it is granted a pair for five minutes and no longer.
  lemma CodeLastsFiveMinutes(
    c: Digests, s: Sys, client: Client, wanted: CodeRequest, request: ExchangeRequest, d: nat)
    requires Inv(c, s) && s.exchanges == map[] && s.clients == map[] && c.hex(request.code) !in s.codes
    requires wanted.client == request.client && wanted.redirect == request.redirect
    requires ChallengeMet(c, wanted, request.verifier) && SecretProved(c, client, request.secret)
    requires !client.confidential ==> wanted.challenge != ""
    ensures var registered := Step(c, s, Register(wanted.client, client));
            var joined := Step(c, registered, World({wanted.user}, {(wanted.user, client.tenant)}));
            var coded := Step(c, joined, CreateCode(c.hex(request.code), wanted));
            var end := Alone(c, Step(c, coded, Tick(d)), request);
            0 in end.exchanges && (end.exchanges[0].pc.Issued? <==> d <= 5 * 60 * 1_000_000)
  {
    var registered := Step(c, s, Register(wanted.client, client));
    var joined := Step(c, registered, World({wanted.user}, {(wanted.user, client.tenant)}));
    var coded := Step(c, joined, CreateCode(c.hex(request.code), wanted));
    var later := Step(c, coded, Tick(d));
    StepKeepsInvariant(c, s, Register(wanted.client, client));
    StepKeepsInvariant(c, registered, World({wanted.user}, {(wanted.user, client.tenant)}));
    StepKeepsInvariant(c, joined, CreateCode(c.hex(request.code), wanted));
    StepKeepsInvariant(c, coded, Tick(d));
    hide Inv, Alone, ChallengeMet, SecretProved;
    ExchangeSucceedsExactly(c, later, request);
  }

  // Soft deletion is never looked at: whoever was soft-deleted after the code was
  // made, its own user included, a call is granted a pair exactly as without.
  lemma SoftDeletedIsServedExactly(c: Digests, s: Sys, user: Uuid, request: ExchangeRequest)
    requires Inv(c, s) && s.exchanges == map[]
    ensures var later := Step(c, s, SoftDelete(user));
            var end := Alone(c, later, request);
            && user in later.deleted && 0 in end.exchanges
            && (end.exchanges[0].pc.Issued? <==> Deserves(c, s, request))
            && (end.exchanges[0].pc.Issued? ==> AnswersRequest(end.exchanges[0].pc, s.origins[c.hex(request.code)].request))
  {
    hide Alone, Inv, AnswersRequest;
    var later := Step(c, s, SoftDelete(user));
    StepKeepsInvariant(c, s, SoftDelete(user));
    ExchangeSucceedsExactly(c, later, request);
  }

  // A code is made for a soft-deleted member as well.
  lemma SoftDeletedGetsACode(s: Sys, hash: Hash, wanted: CodeRequest)
    requires hash !in s.codes && wanted.user in s.deleted && wanted.client in s.clients
    ensures hash in CreateCodeStep(s, hash, wanted).codes <==> (wanted.user, s.clients[wanted.client].tenant) in s.members
  {
  }

  // claimant, tested, granted and origins record history only.
  class Server {
    const digests: Digests
    var now: int
    var codes: map<Hash, CodeRow>
    var clients: map<string, Client>
    var users: set<Uuid>
    var deleted: set<Uuid>
    var members: set<(Uuid, Uuid)>
    var origins: map<Hash, Origin>
    var claimant: map<Hash, nat>
    var tested: multiset<Hash>
    var granted: multiset<Hash>

    function State(): Sys
      reads this
    {
      Sys(now, codes, clients, users, deleted, members, map[], origins, claimant, tested, granted)
    }

    constructor (digests: Digests, now: int)
      ensures this.digests == digests && Inv(digests, State()) && this.now == now && codes == map[] && clients == map[]
    {
      this.digests, this.now, codes, clients := digests, now, map[], map[];
      users, deleted, members := {}, {}, {};
      origins, claimant, tested, granted := map[], map[], multiset{}, multiset{};
    }

    // hash is the digest of a freshly drawn random code.
    method Create(wanted: CodeRequest, hash: Hash) returns (ok: bool)
      requires hash !in codes
      modifies this`codes, this`origins
      ensures State() == CreateCodeStep(old(State()), hash, wanted)
      ensures ok <==> wanted.client in clients && (wanted.user, clients[wanted.client].tenant) in members
    {
      if wanted.client !in clients {
        return false;
      }
      var tenant := clients[wanted.client].tenant;
      if (wanted.user, tenant) !in members {
        return false;
      }
      codes := codes[hash := StoredCode(wanted, now)];
      origins := origins[hash := Origin(wanted, now)];
      return true;
    }

    // Claims the code if nobody has: one row updated, or none.
    method ClaimCode(hash: Hash) returns (rows: nat)
      modifies this`codes, this`claimant
      ensures rows == if old(hash in codes && !codes[hash].used) then 1 else 0
      ensures codes == if rows == 1 then old(codes)[hash := old(codes)[hash].(used := true)] else old(codes)
      ensures claimant == if rows == 1 then old(claimant)[hash := 0] else old(claimant)
    {
      if hash in codes && !codes[hash].used {
        codes := codes[hash := codes[hash].(used := true)];
        claimant := claimant[hash := 0];
        return 1;
      }
      return 0;
    }

    method CheckClient(row: CodeRow, secret: string) returns (pc: Pc)
      ensures pc == ClientCheck(digests, clients, row, secret)
      ensures pc == ClientOk(row) <==>
              && row.client in clients && SecretProved(digests, clients[row.client], secret)
              && (clients[row.client].confidential || HasPkce(row))
      ensures pc == Failed(PkceRequired) <==>
              row.client in clients && !clients[row.client].confidential && !HasPkce(row)
      ensures pc != ClientOk(row) && pc != Failed(PkceRequired) ==> pc == Failed(InvalidClient)
    {
      if row.client !in clients {
        return Failed(InvalidClient);
      }
      var client := clients[row.client];
      if client.confidential {
        var provided := digests.hex(secret);
        if client.secretHash != Some(provided) {
          return Failed(InvalidClient);
        }
      } else if !HasPkce(row) {
        return Failed(PkceRequired);
      }
      return ClientOk(row);
    }

    // What comes after the verification of a claimed code.
    method Grant(row: CodeRow, hash: Hash, secret: string, ghost s: Sys) returns (pc: Pc)
      requires State() == s.(exchanges := map[])
      requires 0 in s.exchanges && s.exchanges[0].pc == Verified(row)
      requires s.exchanges[0].hash == hash && s.exchanges[0].request.secret == secret
      modifies this`granted
      ensures var end := Step(digests, Reads(digests, s, 0), Issue(0));
              State() == end.(exchanges := map[]) && 0 in end.exchanges && end.exchanges[0].pc == pc
      ensures pc.Failed? || pc.Issued?
    {
      hide Step, Reads, ClientCheck;
      ReadsAnswer(digests, s, 0);
      IssueAnswer(digests, s, 0, Answer(digests, s, s.exchanges[0]));
      pc := CheckClient(row, secret);
      if pc.Failed? {
        return;
      }
      if row.user !in users {
        return Failed(NoUser);
      }
      if row.client !in clients {
        return Failed(InvalidClient);
      }
      var tenant := clients[row.client].tenant;
      if (row.user, tenant) !in members {
        return Failed(NotAMember);
      }
      granted := granted + multiset{hash};
      pc := Issued(row, tenant);
    }

    // What comes after the claim.
    method Redeem(row: CodeRow, hash: Hash, request: ExchangeRequest, ghost s: Sys) returns (pc: Pc)
      requires State() == s.(exchanges := map[])
      requires 0 in s.exchanges && s.exchanges[0].pc == Claimed(row)
      requires s.exchanges[0].hash == hash && s.exchanges[0].request == request
      modifies this`tested, this`granted
      ensures var end := Step(digests, Reads(digests, Step(digests, s, Verify(0)), 0), Issue(0));
              State() == end.(exchanges := map[]) && 0 in end.exchanges && end.exchanges[0].pc == pc
      ensures pc.Failed? || pc.Issued?
    {
      hide Reads, PkceOk, HasPkce, ReadStep, IssueStep, CreateCodeStep, PresentStep, ClaimStep;
      if HasPkce(row) {
        tested := tested + multiset{hash};
      }
      ghost var s3 := Step(digests, s, Verify(0));
      if !PkceOk(digests, row, request.verifier) {
        FailedRests(digests, s3, 0);
        return Failed(InvalidGrant);
      }
      pc := Grant(row, hash, request.secret, s3);
    }

    // An exchange with nobody else at work leaves the tables, and gives the
    // answer, of the interleaved machine running its steps in a row.
    method Exchange(request: ExchangeRequest) returns (pc: Pc)
      modifies this`codes, this`claimant, this`tested, this`granted
      ensures var end := Alone(digests, old(State()), request);
              State() == end.(exchanges := map[]) && 0 in end.exchanges && end.exchanges[0].pc == pc
      ensures pc.Failed? || pc.Issued?
    {
      hide Reads, VerifyStep, ReadStep, IssueStep, CreateCodeStep;
      var hash := digests.hex(request.code);
      ghost var s1 := Step(digests, State(), Present(0, request));
      if hash !in codes {
        FailedRests(digests, s1, 0);
        return Failed(InvalidGrant);
      }
      var row := codes[hash];
      if row.used || row.expires < now || row.client != request.client || row.redirect != request.redirect {
        FailedRests(digests, s1, 0);
        return Failed(InvalidGrant);
      }
      var rows := ClaimCode(hash);
      assert rows == 1;
      pc := Redeem(row, hash, request, Step(digests, s1, Claim(0)));
    }
  }
}
