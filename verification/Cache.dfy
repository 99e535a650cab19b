// The cache client: entries set with a time to live, read back, and dropped by a
// loop over scan replies.
module Cache {
  import opened Sql
  import opened Rbac
  import Denylist
  import PermissionCache

  type Key = PermissionCache.Key
  type Entry = PermissionCache.Entry

  // One answer to SCAN: the next cursor, zero at the end, and matching keys.
  datatype Reply = Reply(next: nat, keys: set<Key>)

  // The answers a scan gets while nobody else writes, the last one final or an
  // error: only keys of the user, and all of those that are there.
  ghost predicate ScanOf(replies: seq<Option<Reply>>, perms: map<Key, Entry>, user: Uuid) {
    && replies != []
    && (forall i | 0 <= i < |replies| - 1 :: replies[i].Some? && replies[i].value.next != 0)
    && (forall i | 0 <= i < |replies| && replies[i].Some? :: forall k | k in replies[i].value.keys :: k.user == user)
    && var last := replies[|replies| - 1];
       last.Some? ==>
         && last.value.next == 0
         && forall k | k in perms && k.user == user :: k in Returned(replies)
  }

  function Returned(replies: seq<Option<Reply>>): set<Key> {
    set i, k | 0 <= i < |replies| && replies[i].Some? && k in replies[i].value.keys :: k
  }

  class Cache {
    const enabled: bool
    var now: int
    var perms: map<Key, Entry>
    var denylist: map<string, int>

    constructor (enabled: bool, now: int)
      ensures this.enabled == enabled && this.now == now && perms == map[] && denylist == map[]
    {
      this.enabled, this.now, perms, denylist := enabled, now, map[], map[];
    }

    ghost predicate Mirrors(s: PermissionCache.Sys)
      reads this
    {
      s.enabled == enabled && s.now == now && s.cache == perms
    }

    ghost predicate MirrorsDenylist(s: Denylist.Sys)
      reads this
    {
      s.enabled == enabled && s.now == now && s.redis == denylist
    }

    method Deny(jti: string, ttl: int)
      modifies this`denylist
      ensures denylist == Denylist.SetEntry(old(denylist), enabled, jti, ttl, now)
    {
      if jti == "" || ttl <= 0 {
        return;
      }
      if enabled {
        denylist := denylist[jti := now + ttl * Denylist.SECOND];
      }
    }

    method IsDenied(jti: string, ghost s: Denylist.Sys) returns (denied: Option<bool>)
      requires MirrorsDenylist(s)
      ensures denied == Denylist.RedisAnswer(s, jti)
    {
      if jti == "" || !enabled {
        return None;
      }
      denied := Some(jti in denylist && now < denylist[jti]);
    }

    method GetPerms(key: Key, ghost s: PermissionCache.Sys) returns (value: Option<set<string>>)
      requires Mirrors(s)
      ensures value.Some? <==> enabled && PermissionCache.Live(s, key)
      ensures value.Some? ==> value.value == s.cache[key].value
    {
      if enabled && key in perms && now < perms[key].expiry {
        return Some(perms[key].value);
      }
      return None;
    }

    method SetPerms(key: Key, value: set<string>)
      modifies this`perms
      ensures perms == if !enabled then old(perms)
                       else old(perms)[key := PermissionCache.Entry(value, now + PermissionCache.PERMS_TTL, now)]
    {
      if enabled {
        perms := perms[key := PermissionCache.Entry(value, now + PermissionCache.PERMS_TTL, now)];
      }
    }

    // The permissions of a validation: from the cache, else from the database and
    // then cached. On its own it is the machine's three steps in a row.
    method PermissionsOf(db: Db, key: Key, ghost s: PermissionCache.Sys, ghost id: nat) returns (value: set<string>)
      requires Mirrors(s) && s.db == db && id !in s.validations
      modifies this`perms
      ensures var looked := PermissionCache.Step(s, PermissionCache.LookUp(id, key));
              var queried := PermissionCache.Step(looked, PermissionCache.Query(id));
              var end := PermissionCache.Step(queried, PermissionCache.Fill(id));
              && Mirrors(end) && end.validations[id].Answered? && end.validations[id].value == value
    {
      hide PermissionCache.Value;
      var hit := GetPerms(key, s);
      if hit.Some? {
        return hit.value;
      }
      value := PermissionCache.Value(db, key);
      SetPerms(key, value);
    }

    // SCAN and DEL until the cursor comes back to zero; an error gives up. Drops
    // every entry of the user, in every tenant and project, and nobody else's.
    method InvalidatePerms(user: Uuid, replies: seq<Option<Reply>>) returns (complete: bool)
      requires enabled ==> ScanOf(replies, perms, user)
      modifies this`perms
      ensures complete <==> enabled && replies[|replies| - 1].Some?
      ensures complete ==> perms == map k | k in old(perms) && k.user != user :: old(perms)[k]
      ensures perms.Keys <= old(perms).Keys
      ensures forall k | k in old(perms) && (k.user != user || !enabled) :: k in perms
      ensures forall k | k in perms :: perms[k] == old(perms)[k]
    {
      if !enabled {
        return false;
      }
      var i := 0;
      while i < |replies|
        invariant 0 <= i < |replies|
        invariant perms == old(perms) - Returned(replies[..i])
        decreases |replies| - i
      {
        if replies[i].None? {
          ReturnedIsOfUser(replies, old(perms), user, i);
          return false;
        }
        var reply := replies[i].value;
        ReturnedGrows(replies, i);
        if reply.keys != {} {
          perms := perms - reply.keys;
        }
        assert perms == old(perms) - Returned(replies[..i + 1]);
        if reply.next == 0 {
          ReturnedIsOfUser(replies, old(perms), user, i + 1);
          assert replies[..i + 1] == replies;
          return true;
        }
        i := i + 1;
      }
    }
  }

  lemma ReturnedGrows(replies: seq<Option<Reply>>, i: nat)
    requires i < |replies| && replies[i].Some?
    ensures Returned(replies[..i + 1]) == Returned(replies[..i]) + replies[i].value.keys
  {
  }

  lemma ReturnedIsOfUser(replies: seq<Option<Reply>>, perms: map<Key, Entry>, user: Uuid, i: nat)
    requires ScanOf(replies, perms, user) && i <= |replies|
    ensures forall k | k in Returned(replies[..i]) :: k.user == user
  {
  }
}
