/** The cache itself; each method is one critical section under its lock. */
module AuthCache {
  import opened Outcomes
  import opened AuthHistory

  class AuthCache {
    var entries: Entries
    var flag: Option<(bool, nat)>
    const ttl: nat
    const hash: string -> Digest
    /** Everything that happened to this cache, in order. */
    ghost var log: seq<Event>

    ghost function Contents(): CacheState
      reads this
    {
      CacheState(entries, flag)
    }

    ghost predicate Valid()
      reads this
    {
      Consistent(Contents(), log)
    }

    constructor (ttl: nat, hash: string -> Digest)
      ensures Valid() && Contents() == EMPTY && log == [] && this.ttl == ttl && this.hash == hash
    {
      this.ttl := ttl;
      this.hash := hash;
      entries := map[];
      flag := None;
      log := [];
    }

    /**
     The identity a raw key verified as before: there is one exactly when the last event touching
     the key inserted it, at most the TTL ago.
     */
    method Lookup(raw: string, now: nat) returns (found: Option<Identity>)
      requires Valid()
      ensures found == LookupIn(Contents(), ttl, hash(raw), now)
      ensures forall identity :: found == Some(identity) <==>
                ttl > 0 && exists at: nat, i: nat ::
                  LastInsert(log, hash(raw), CachedKey(identity, at), i) && now - at <= ttl
    {
      if ttl == 0 {
        found := None;
      } else {
        var key := hash(raw);
        if key !in entries || now - entries[key].insertedAt > ttl {
          found := None;
        } else {
          found := Some(entries[key].identity);
        }
      }
      forall identity
        ensures found == Some(identity) <==>
                ttl > 0 && exists at: nat, i: nat ::
                  LastInsert(log, hash(raw), CachedKey(identity, at), i) && now - at <= ttl
      {
        LookupExactly(Contents(), log, ttl, hash(raw), now, identity);
      }
    }

    /** Scans the entries for one that was inserted first. */
    method Oldest() returns (victim: Digest)
      requires entries != map[]
      ensures victim in entries
      ensures forall k :: k in entries ==> entries[victim].insertedAt <= entries[k].insertedAt
    {
      var unseen := entries.Keys;
      victim :| victim in unseen;
      while unseen != {}
        invariant unseen <= entries.Keys && victim in entries
        invariant forall k :: k in entries && k !in unseen ==> entries[victim].insertedAt <= entries[k].insertedAt
        invariant unseen == entries.Keys || victim !in unseen
        decreases |unseen|
      {
        var k :| k in unseen;
        if unseen == entries.Keys || entries[k].insertedAt < entries[victim].insertedAt {
          victim := k;
        }
        unseen := unseen - {k};
      }
    }

    /** Remembers a verified key; at capacity an oldest entry makes room, even for a key already cached. */
    method Insert(raw: string, identity: Identity, now: nat, ghost r: nat) returns (ghost victim: Digest)
      requires Valid()
      modifies this`entries, this`log
      ensures Valid() && (ttl > 0 ==> RoomBy(old(entries), victim))
      ensures Contents() == InsertInto(old(Contents()), ttl, hash(raw), CachedKey(identity, now), victim)
      ensures log == old(log) + InsertEvents(old(Contents()), ttl, r, hash(raw), CachedKey(identity, now), victim)
      ensures |entries| <= 1024 && (|old(entries)| < 1024 ==> forall k :: k in old(entries) ==> k in entries)
    {
      if ttl == 0 {
        assert log + [] == log;
        victim := "";
        return;
      }
      ghost var before := Contents();
      var entry := CachedKey(identity, now);
      victim := "";
      if |entries| >= MAX_ENTRIES {
        var oldest := Oldest();
        victim := oldest;
        entries := entries - {oldest};
      }
      entries := entries[hash(raw) := entry];
      InsertKeeps(before, log, ttl, r, hash(raw), entry, victim);
      log := log + InsertEvents(before, ttl, r, hash(raw), entry, victim);
    }

    method Remove(raw: string)
      requires Valid()
      modifies this`entries, this`log
      ensures Valid() && Contents() == RemoveFrom(old(Contents()), hash(raw))
      ensures log == old(log) + [Removed(hash(raw))]
    {
      DropKeeps(Contents(), log, Removed(hash(raw)));
      entries := entries - {hash(raw)};
      log := log + [Removed(hash(raw))];
    }

    /** Drops every entry of one key id. */
    method InvalidateKeyId(keyId: string)
      requires Valid()
      modifies this`entries, this`log
      ensures Valid() && Contents() == InvalidateIn(old(Contents()), keyId)
      ensures log == old(log) + [Invalidated(keyId)]
      ensures forall k :: k in entries ==> !IsKeyOf(entries[k].identity, keyId)
    {
      InvalidateKeeps(Contents(), log, keyId);
      entries := map k | k in entries && !IsKeyOf(entries[k].identity, keyId) :: entries[k];
      log := log + [Invalidated(keyId)];
    }

    /** The first critical section of a clear, under the lock of the entries. */
    method ClearEntries()
      requires Valid()
      modifies this`entries, this`log
      ensures Valid() && Contents() == old(Contents()).(entries := map[]) && log == old(log) + [EntriesCleared]
    {
      ClearEntriesKeeps(Contents(), log);
      entries := map[];
      log := log + [EntriesCleared];
    }

    /** The second, under the lock of the flag. */
    method ClearFlag()
      requires Valid()
      modifies this`flag, this`log
      ensures Valid() && Contents() == old(Contents()).(keysExist := None) && log == old(log) + [FlagCleared]
    {
      ClearFlagKeeps(Contents(), log);
      flag := None;
      log := log + [FlagCleared];
    }

    /** Both with nothing in between. */
    method Clear()
      requires Valid()
      modifies this`entries, this`flag, this`log
      ensures Valid() && Contents() == EMPTY && log == old(log) + [EntriesCleared, FlagCleared]
    {
      ClearEntries();
      ClearFlag();
    }

    method KeysExist(now: nat) returns (value: Option<bool>)
      requires Valid()
      ensures value == KeysExistIn(Contents(), ttl, now)
      ensures forall v :: value == Some(v) <==>
                ttl > 0 && exists at: nat, i: nat :: LastFlag(log, v, at, i) && now - at <= ttl
    {
      forall v
        ensures KeysExistIn(Contents(), ttl, now) == Some(v) <==>
                ttl > 0 && exists at: nat, i: nat :: LastFlag(log, v, at, i) && now - at <= ttl
      {
        FlagExactly(Contents(), log, ttl, now, v);
      }
      if ttl == 0 {
        return None;
      }
      match flag {
        case Some((v, at)) => value := if now - at <= ttl then Some(v) else None;
        case None => value := None;
      }
    }

    method SetKeysExist(value: bool, now: nat, ghost setter: Option<nat>)
      requires Valid()
      modifies this`flag, this`log
      ensures Valid() && Contents() == SetFlag(old(Contents()), ttl, value, now)
      ensures log == old(log) + FlagEvents(ttl, setter, value, now)
    {
      if ttl == 0 {
        assert log + [] == log;
        return;
      }
      FlagKeeps(Contents(), log, ttl, setter, value, now);
      flag := Some((value, now));
      log := log + [FlagSet(setter, value, now)];
    }
  }
}
