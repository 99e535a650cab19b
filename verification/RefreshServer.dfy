// The refresh and logout calls as they run on their own, against the token table.
module RefreshServer {
  import opened Sql
  import opened RefreshTokens

  // One call on its own is the run of its steps.
  function Alone(s: Sys, id: nat, hash: Hash, newHash: Hash): Sys {
    var presented := Step(s, Present(id, hash));
    var decided := Step(presented, Decide(id));
    var issued := Step(Step(decided, LookUp(id)), Issue(id, newHash));
    Step(Step(issued, Rotate(id)), Wipe(id))
  }

  lemma AloneIsARun(s: Sys, id: nat, hash: Hash, newHash: Hash)
    ensures Alone(s, id, hash, newHash) ==
            Run(s, [Present(id, hash), Decide(id), LookUp(id), Issue(id, newHash), Rotate(id), Wipe(id)])
  {
    hide Step;
    var s1 := Step(s, Present(id, hash));
    var s2 := Step(s1, Decide(id));
    var s3 := Step(s2, LookUp(id));
    var s4 := Step(s3, Issue(id, newHash));
    var s5 := Step(s4, Rotate(id));
    var es := [Present(id, hash), Decide(id), LookUp(id), Issue(id, newHash), Rotate(id), Wipe(id)];
    assert Run(s5, es[5..]) == Step(s5, Wipe(id));
    assert es[4..][1..] == es[5..] && Run(s4, es[4..]) == Run(s5, es[5..]);
    assert es[3..][1..] == es[4..] && Run(s3, es[3..]) == Run(s4, es[4..]);
    assert es[2..][1..] == es[3..] && Run(s2, es[2..]) == Run(s3, es[3..]);
    assert es[1..][1..] == es[2..] && Run(s1, es[1..]) == Run(s2, es[2..]);
  }

  // The state in which a lone call with nothing left to do rests.
  function Rest(s: Sys, hash: Hash, outcome: Outcome): Sys {
    s.(handlers := map[0 := Handler(hash, Finished(outcome))])
  }

  lemma AloneUnknown(s: Sys, hash: Hash, newHash: Hash)
    requires s.handlers == map[] && hash !in s.tokens
    ensures Alone(s, 0, hash, newHash) == Rest(s, hash, Rejected(UnknownToken))
  {
  }

  lemma AloneWipes(s: Sys, hash: Hash, newHash: Hash)
    requires s.handlers == map[] && hash in s.tokens
    requires s.tokens[hash].revokedAt.Some? && !InGrace(s.tokens[hash], s.now)
    ensures Alone(s, 0, hash, newHash) ==
            Rest(s.(tokens := RevokeUser(s.tokens, s.tokens[hash].binding.user, s.now)), hash, Rejected(Reused))
  {
  }

  lemma AloneExpired(s: Sys, hash: Hash, newHash: Hash)
    requires s.handlers == map[] && hash in s.tokens
    requires s.tokens[hash].revokedAt.None? && s.tokens[hash].expires < s.now
    ensures Alone(s, 0, hash, newHash) == Rest(s, hash, Rejected(Expired))
  {
  }

  predicate Proceeds(row: Token, now: int) {
    if row.revokedAt.Some? then InGrace(row, now) else now <= row.expires
  }

  lemma AloneUserless(s: Sys, hash: Hash, newHash: Hash)
    requires s.handlers == map[] && hash in s.tokens && Proceeds(s.tokens[hash], s.now)
    requires s.tokens[hash].binding.user !in s.users
    ensures Alone(s, 0, hash, newHash) == Rest(s, hash, Rejected(UserNotFound))
  {
  }

  lemma AloneIssues(s: Sys, hash: Hash, newHash: Hash)
    requires s.handlers == map[] && hash in s.tokens && Proceeds(s.tokens[hash], s.now)
    requires s.tokens[hash].binding.user in s.users && newHash !in s.used && newHash != hash
    ensures var issued := Insert(s, newHash, s.tokens[hash].binding, Some(hash));
            var tokens := if s.tokens[hash].revokedAt.Some? then issued.tokens
                          else RotateOne(issued.tokens, hash, newHash, s.now);
            Alone(s, 0, hash, newHash) == Rest(issued.(tokens := tokens), hash, Pair(newHash))
  {
  }

  // An expired token is still renewed exactly while it is in its grace window and
  // its user exists: the expiry is not looked at there.
  lemma ExpiredRenewsExactly(s: Sys, hash: Hash, newHash: Hash)
    requires s.handlers == map[] && hash in s.tokens && s.tokens[hash].expires < s.now
    requires newHash !in s.used && newHash != hash
    ensures var end := Alone(s, 0, hash, newHash);
            && 0 in end.handlers
            && (end.handlers[0].pc == Finished(Pair(newHash)) <==>
                  InGrace(s.tokens[hash], s.now) && s.tokens[hash].binding.user in s.users)
  {
    hide Alone, InGrace;
    var row := s.tokens[hash];
    if row.revokedAt.None? {
      AloneExpired(s, hash, newHash);
      assert !InGrace(row, s.now) by { LiveIsNotInGrace(row, s.now); }
    } else if !InGrace(row, s.now) {
      AloneWipes(s, hash, newHash);
    } else if row.binding.user !in s.users {
      AloneUserless(s, hash, newHash);
    } else {
      AloneIssues(s, hash, newHash);
    }
  }

  lemma LiveIsNotInGrace(row: Token, now: int)
    requires row.revokedAt.None?
    ensures !InGrace(row, now)
  {
  }

  // A login can be renewed, once, exactly for the lifetime of its token.
  lemma LoginLastsItsLifetime(s: Sys, binding: Binding, hash: Hash, d: nat, newHash: Hash)
    requires s.handlers == map[] && binding.user in s.users && hash !in s.used && newHash !in s.used + {hash}
    ensures var later := Step(Step(s, Login(binding, hash)), Tick(d));
            var end := Alone(later, 0, hash, newHash);
            && 0 in end.handlers
            && end.handlers[0].pc == Finished(if d <= s.ttl then Pair(newHash) else Rejected(Expired))
            && (d <= s.ttl ==> newHash in end.tokens && end.tokens[newHash].binding == binding)
  {
    hide Alone, RotateOne;
    var later := Step(Step(s, Login(binding, hash)), Tick(d));
    assert later.tokens[hash] == Token(binding, s.now + s.ttl, None, None, s.next, None);
    if d <= s.ttl {
      AloneIssues(later, hash, newHash);
      RotatingKeepsOthers(Insert(later, newHash, binding, Some(hash)).tokens, hash, newHash, later.now);
    } else {
      AloneExpired(later, hash, newHash);
    }
  }

  // A renewed token is live and starts a full lifetime of its own.
  lemma RenewalLastsAFullLifetime(s: Sys, hash: Hash, newHash: Hash)
    requires s.handlers == map[] && hash in s.tokens && Proceeds(s.tokens[hash], s.now)
    requires s.tokens[hash].binding.user in s.users && newHash !in s.used && newHash != hash
    ensures var end := Alone(s, 0, hash, newHash);
            && newHash in end.tokens
            && end.tokens[newHash].expires == s.now + s.ttl && end.tokens[newHash].revokedAt == None
            && end.tokens[newHash].replacedBy == None && end.tokens[newHash].binding == s.tokens[hash].binding
  {
    hide Alone, RotateOne, Proceeds;
    AloneIssues(s, hash, newHash);
    RotatingKeepsOthers(Insert(s, newHash, s.tokens[hash].binding, Some(hash)).tokens, hash, newHash, s.now);
  }

  // So it can be renewed in turn exactly for that long.
  lemma RenewalCanBeRenewed(s: Sys, hash: Hash, newHash: Hash, d: nat, third: Hash)
    requires s.handlers == map[] && hash in s.tokens && Proceeds(s.tokens[hash], s.now)
    requires s.tokens[hash].binding.user in s.users && newHash !in s.used && newHash != hash
    requires third !in s.used + {newHash}
    ensures var renewed := Alone(s, 0, hash, newHash).(handlers := map[]);
            var end := Alone(renewed.(now := s.now + d), 0, newHash, third);
            && 0 in end.handlers
            && end.handlers[0].pc == Finished(if d <= s.ttl then Pair(third) else Rejected(Expired))
  {
    hide Alone, RotateOne, Proceeds;
    RenewalLastsAFullLifetime(s, hash, newHash);
    AloneIssues(s, hash, newHash);
    var later := Alone(s, 0, hash, newHash).(handlers := map[], now := s.now + d);
    if d <= s.ttl {
      assert Proceeds(later.tokens[newHash], later.now) by { LiveProceeds(later.tokens[newHash], later.now); }
      AloneIssues(later, newHash, third);
    } else {
      AloneExpired(later, newHash, third);
    }
  }

  lemma LiveProceeds(row: Token, now: int)
    requires row.revokedAt.None? && now <= row.expires
    ensures Proceeds(row, now)
  {
  }

  // A logged-out token renews nothing any more: presenting it, then or later, takes
  // the rest of the user's live tokens with it. The logout itself takes only one.
  lemma LogoutEndsTheToken(s: Sys, hash: Hash, d: nat, newHash: Hash, other: Hash)
    requires s.handlers == map[] && hash in s.tokens && s.tokens[hash].revokedAt.None? && s.tokens[hash].replacedBy.None?
    requires other in s.tokens && other != hash
    ensures var out := Step(s, Event.Logout(hash));
            && out.tokens[hash] == s.tokens[hash].(revokedAt := Some(s.now))
            && out.tokens[other] == s.tokens[other]
            && var end := Alone(Step(out, Tick(d)), 0, hash, newHash);
               && 0 in end.handlers && end.handlers[0].pc == Finished(Rejected(Reused))
               && end.tokens.Keys == s.tokens.Keys
               && end.tokens[other].revokedAt ==
                    (if s.tokens[other].binding.user == s.tokens[hash].binding.user && s.tokens[other].revokedAt.None?
                     then Some(s.now + d) else s.tokens[other].revokedAt)
  {
    hide Alone;
    AloneWipes(Step(Step(s, Event.Logout(hash)), Tick(d)), hash, newHash);
  }

  lemma RotatingKeepsOthers(tokens: map<Hash, Token>, hash: Hash, successor: Hash, now: int)
    ensures RotateOne(tokens, hash, successor, now).Keys == tokens.Keys
    ensures forall h | h in tokens && h != hash :: RotateOne(tokens, hash, successor, now)[h] == tokens[h]
  {
  }

  // known, used and next record history only: no branch depends on them.
  class Server {
    const ttl: int
    var now: int
    var users: set<Uuid>
    var known: set<Uuid>
    var tokens: map<Hash, Token>
    var used: set<Hash>
    var next: nat

    function State(): Sys
      reads this
    {
      Sys(now, ttl, users, known, tokens, used, next, map[])
    }

    constructor (ttl: int, now: int)
      ensures State() == Sys(now, ttl, {}, {}, map[], {}, 0, map[])
      ensures Inv(State())
    {
      this.ttl, this.now := ttl, now;
      users, known, tokens, used, next := {}, {}, map[], {}, 0;
    }

    // newHash is the hash of a freshly drawn random token.
    method IssueTokens(binding: Binding, newHash: Hash, origin: Option<Hash>) returns (ok: bool)
      requires newHash !in used
      modifies this`tokens, this`used, this`next
      ensures ok == (binding.user in users)
      ensures State() == if ok then Insert(old(State()), newHash, binding, origin) else old(State())
    {
      ok := binding.user in users;
      if ok {
        tokens := tokens[newHash := Token(binding, now + ttl, None, None, next, origin)];
        used := used + {newHash};
        next := next + 1;
      }
    }

    method RotateRefreshToken(hash: Hash, replacedBy: Hash)
      modifies this`tokens
      ensures tokens == RotateOne(old(tokens), hash, replacedBy, now)
    {
      if hash in tokens {
        var row := tokens[hash];
        if row.revokedAt.None? {
          tokens := tokens[hash := row.(revokedAt := Some(now), replacedBy := Some(replacedBy))];
        }
      }
    }

    method RevokeAllUserRefreshTokens(user: Uuid)
      modifies this`tokens
      ensures tokens == RevokeUser(old(tokens), user, now)
    {
      tokens := RevokeUser(tokens, user, now);
    }

    method Logout(hash: Hash)
      modifies this`tokens
      ensures State() == Step(old(State()), Event.Logout(hash))
    {
      if hash in tokens && tokens[hash].revokedAt.None? {
        tokens := tokens[hash := tokens[hash].(revokedAt := Some(now))];
      }
    }

    // A refresh with nobody else at work leaves the tables, and gives the answer,
    // of the interleaved machine running its steps in a row.
    method Refresh(hash: Hash, newHash: Hash) returns (outcome: Outcome)
      requires newHash !in used && newHash != hash
      modifies this`tokens, this`used, this`next
      ensures var end := Alone(old(State()), 0, hash, newHash);
              State() == end.(handlers := map[]) && 0 in end.handlers && end.handlers[0].pc == Finished(outcome)
    {
      hide Step, Alone, RevokeUser, RotateOne;
      ghost var before := State();
      if hash !in tokens {
        AloneUnknown(before, hash, newHash);
        return Rejected(UnknownToken);
      }
      var row := tokens[hash];
      var user := row.binding.user;
      if row.revokedAt.Some? {
        var rotated := row.replacedBy.Some?;
        if rotated && now - row.revokedAt.value < GRACE {
          if user !in users {
            AloneUserless(before, hash, newHash);
            return Rejected(UserNotFound);
          }
          var issued := IssueTokens(row.binding, newHash, Some(hash));
          AloneIssues(before, hash, newHash);
          return Pair(newHash);
        }
        AloneWipes(before, hash, newHash);
        RevokeAllUserRefreshTokens(user);
        return Rejected(Reused);
      }
      if row.expires < now {
        AloneExpired(before, hash, newHash);
        return Rejected(Expired);
      }
      if user !in users {
        AloneUserless(before, hash, newHash);
        return Rejected(UserNotFound);
      }
      var issued := IssueTokens(row.binding, newHash, Some(hash));
      RotateRefreshToken(hash, newHash);
      AloneIssues(before, hash, newHash);
      return Pair(newHash);
    }
  }
}
