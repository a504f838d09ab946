/** The reader of the JIT symbol file list (unwindstack/GlobalDebugImpl.h). */
module JitReaders {
  import opened Wrappers
  import opened JitEntries
  import opened JitLists

  /** The pointer a list step reads: the head's, or an entry's own. */
  function FieldAt(w: Target, t: nat, from: Option<nat>): nat {
    if from.None? then w.head(t) else w.entry(t, from.value).next
  }

  class JitReader {
    const w: Target
    const seqlocks: bool
    const valid: Symfile -> bool
    var now: nat
    var readCount: nat
    var entries: map<Uid, Symfile>

    ghost predicate Valid()
      reads this
    {
      seqlocks ==> Disciplined(w) && AllWhole(w, entries, now)
    }

    /** Nothing changes, and `path` is the list. */
    ghost predicate Calm(t: nat, path: seq<nat>) {
      Quiet(w, t) && IsPath(w, seqlocks, t, path)
    }

    /** Writers work on the list as they should; no read fails. */
    ghost predicate Concurrent(list: nat -> seq<nat>) {
      seqlocks && Written(w, list) && NeverFails(w)
    }

    lemma Later(t: nat)
      requires t <= now && (seqlocks ==> Disciplined(w) && AllWhole(w, entries, t))
      ensures Valid()
    {
      if seqlocks {
        AllWholeLater(w, entries, t, now);
      }
    }

    lemma StaysCalm(t: nat, later: nat, path: seq<nat>)
      requires Calm(t, path) && t <= later
      ensures Calm(later, path)
      ensures forall known :: Wanted(w, seqlocks, later, valid, known, path, |path|) == Wanted(w, seqlocks, t, valid,
                known, path, |path|)
    {
      hide Wanted, IsPath, Quiet;
      PathStays(w, seqlocks, t, later, path);
      forall known ensures Wanted(w, seqlocks, later, valid, known, path, |path|) == Wanted(w, seqlocks, t, valid,
          known, path, |path|) {
        WantedStays(w, seqlocks, t, later, valid, known, path);
      }
    }

    constructor (w: Target, seqlocks: bool, valid: Symfile -> bool)
      requires seqlocks ==> Disciplined(w)
      ensures Valid() && entries == map[]
    {
      this.w, this.seqlocks, this.valid := w, seqlocks, valid;
      now, readCount, entries := 0, 0, map[];
    }

    /** One read of target memory: time passes, and the read may fail. */
    method Tick() returns (ok: bool)
      modifies this`now, this`readCount
      ensures old(now) <= now && ok == !w.fails(old(readCount))
    {
      now := now + w.delay(readCount);
      ok := !w.fails(readCount);
      readCount := readCount + 1;
    }

    /** A pointer and the lock of the entry it names, in that order. */
    method ReadPointer(from: Option<nat>) returns (ok: bool, address: nat, seqlock: nat, ghost at: nat)
      modifies this`now, this`readCount
      ensures old(now) <= now
      ensures ok ==> old(now) <= at <= now && address == FieldAt(w, at, from)
      ensures ok && seqlocks ==> seqlock == if address == 0 then 0 else w.entry(now, address).seqlock
      ensures NeverFails(w) ==> ok
    {
      address, seqlock, at := 0, 0, now;
      ok := Tick();
      if !ok {
        return;
      }
      address, at := FieldAt(w, now, from), now;
      if seqlocks && address != 0 {
        ok := Tick();
        if !ok {
          return;
        }
        seqlock := w.entry(now, address).seqlock;
      }
    }

    /** Both read twice and compared, as if they had been read together. */
    method ReadNextField(from: Option<nat>) returns (ok: bool, race: bool, uid: Uid, ghost since: nat)
      requires Valid()
      modifies this`now, this`readCount
      ensures old(now) <= now
      ensures ok ==> old(now) <= since <= now && uid.address == FieldAt(w, since, from)
      ensures ok && seqlocks && uid.address != 0 ==> Lives(w, uid, since, now)
      ensures ok && (!seqlocks || uid.address == 0) ==> uid.seqlock == 0
      ensures Quiet(w, old(now)) && UidAt(w, seqlocks, old(now), FieldAt(w, old(now), from)).seqlock % 2 == 0 ==> ok
      ensures (NeverFails(w) && !ok ==> race) && (ok ==> !race)
    {
      race, uid := false, Uid(0, 0);
      var address0, seqlock0, address1, seqlock1;
      ok, address0, seqlock0, since := ReadPointer(from);
      if !ok {
        return;
      }
      if !seqlocks {
        uid := Uid(address0, 0);
        return;
      }
      ghost var t0 := now;
      ok, address1, seqlock1, since := ReadPointer(from);
      if !ok {
        return;
      }
      if address0 != address1 || seqlock0 != seqlock1 || seqlock0 % 2 == 1 {
        ok, race := false, true;
        return;
      }
      uid := Uid(address1, seqlock1);
      if uid.address != 0 {
        OneVersion(w, t0, now, uid.address);
        assert Linked(w, since, uid.address);
      }
    }

    /** Whether the entry is still the version `uid` names. */
    method CheckSeqlock(uid: Uid) returns (ok: bool, race: bool)
      modifies this`now, this`readCount
      ensures old(now) <= now
      ensures ok && seqlocks ==> w.entry(now, uid.address).seqlock == uid.seqlock
      ensures (NeverFails(w) && !ok ==> race) && (ok ==> !race)
      ensures NeverFails(w) && (seqlocks ==> w.entry(now, uid.address).seqlock == uid.seqlock) ==> ok
    {
      race := false;
      if !seqlocks {
        return true, false;
      }
      ok := Tick();
      if ok && w.entry(now, uid.address).seqlock != uid.seqlock {
        ok, race := false, true;
      }
    }

    /** Copies a symbol file byte by byte while the target runs on. */
    method Load(address: nat, size: nat) returns (ok: bool, file: Symfile, ghost times: seq<nat>)
      modifies this`now, this`readCount
      ensures old(now) <= now && |file| == |times| <= size
      ensures forall i :: 0 <= i < |file| ==> old(now) <= times[i] <= now && file[i] == w.byte(times[i], address + i)
      ensures ok <==> |file| == size && valid(file)
      ensures NeverFails(w) ==> |file| == size
    {
      file, times, ok := [], [], true;
      while |file| < size
        invariant old(now) <= now && |file| == |times| <= size
        invariant forall i :: 0 <= i < |file| ==>
                    old(now) <= times[i] <= now && file[i] == w.byte(times[i], address + i)
      {
        ok := Tick();
        if !ok {
          return;
        }
        file, times := file + [w.byte(now, address + |file|)], times + [now];
      }
      ok := valid(file);
    }

    /** Copies the symbol file of an entry and checks that it was of one version. */
    method CopySymfile(uid: Uid, address: nat, size: nat, ghost from: nat,
                       ghost since: nat, ghost upto: nat, ghost addrAt: nat, ghost sizeAt: nat)
      returns (ok: bool, race: bool, loaded: bool, file: Symfile)
      requires from <= since <= upto <= now && since <= addrAt <= now && since <= sizeAt <= now
      requires seqlocks ==> Disciplined(w) && Lives(w, uid, since, upto)
      requires address == w.entry(addrAt, uid.address).symfileAddr && size == w.entry(sizeAt, uid.address).symfileSize
      modifies this`now, this`readCount
      ensures old(now) <= now
      ensures ok && loaded && seqlocks ==> Taken(w, uid, file, from, now)
      ensures (NeverFails(w) && !ok ==> race) && (ok ==> !race)
      ensures ok && seqlocks && NeverFails(w) ==> (loaded <==> valid(SymfileAt(w, since, uid.address)))
      ensures Quiet(w, since) ==>
                && ok && (loaded <==> valid(SymfileAt(w, since, uid.address)))
                && (loaded ==> file == SymfileAt(w, since, uid.address))
    {
      ghost var times;
      loaded, file, times := Load(address, size);
      if Quiet(w, since) {
        QuietCopy(w, since, uid.address, addrAt, sizeAt, file, times);
      }
      ok, race := CheckSeqlock(uid);
      if ok && seqlocks && |file| == size {
        LivesOn(w, uid, since, upto, now);
        assert Copied(w, uid, file, since, now, addrAt, sizeAt, times);
        NotTorn(w, uid, since, now, addrAt, sizeAt, file, times);
      }
    }

    /** Reads the entry's fields and takes or copies its symbol file. */
    method TakeSymfile(uid: Uid, ghost from: nat, ghost since: nat, ghost upto: nat, acc0: map<Uid, Symfile>)
      returns (ok: bool, race: bool, acc: map<Uid, Symfile>)
      requires Valid() && from <= since <= upto <= now && uid !in acc0
      requires seqlocks ==> Lives(w, uid, since, upto) && AllFrom(w, entries, acc0, from, now)
      modifies this`now, this`readCount
      ensures old(now) <= now
      ensures ok && seqlocks ==> AllFrom(w, entries, acc, from, now)
      ensures ok ==> acc0.Keys <= acc.Keys <= acc0.Keys + {uid}
      ensures (NeverFails(w) && !ok ==> race) && (ok ==> !race)
      ensures ok && seqlocks && NeverFails(w) && Loadable(w, since, valid, uid.address) ==> uid in acc
      ensures Quiet(w, since) && FilesAt(w, since, entries, acc0) ==> FilesAt(w, since, entries, acc)
      ensures Quiet(w, since) ==>
                && ok
                && acc.Keys == if uid in entries.Keys || Loadable(w, since, valid, uid.address)
                               then acc0.Keys + {uid} else acc0.Keys
    {
      hide AllWhole, AllFrom, Taken, Disciplined, SymfileAt;
      acc, race := acc0, false;
      ok := Tick();
      if !ok { return; }
      var address := w.entry(now, uid.address).symfileAddr;
      ghost var addrAt := now;
      ok := Tick();
      if !ok { return; }
      var size := w.entry(now, uid.address).symfileSize;
      ghost var sizeAt := now;
      ok, race := CheckSeqlock(uid);
      if !ok { return; }
      if uid in entries {
        acc := acc[uid := entries[uid]];
        if seqlocks {
          AllFromPut(w, entries, acc0, uid, entries[uid], from, old(now), now);
        }
      } else if address != 0 {
        if seqlocks {
          OneAddress(w, uid, since, upto, addrAt, now);
        }
        var loaded, file;
        ok, race, loaded, file := CopySymfile(uid, address, size, from, since, upto, addrAt, sizeAt);
        if !ok { return; }
        if loaded {
          acc := acc[uid := file];
          if seqlocks {
            AllFromPut(w, entries, acc0, uid, file, from, old(now), now);
          }
        } else if seqlocks {
          AllFromLater(w, entries, acc0, from, old(now), now);
        }
      } else if seqlocks {
        OneAddress(w, uid, since, upto, addrAt, now);
        AllFromLater(w, entries, acc0, from, old(now), now);
      }
    }

    /** Takes one entry and steps to the next. */
    method Visit(uid: Uid, acc0: map<Uid, Symfile>, ghost from: nat, ghost since0: nat, ghost upto0: nat,
                 ghost t: nat, ghost path: seq<nat>, ghost i: nat, ghost had: set<Uid>)
      returns (ok: bool, race: bool, next: Uid, acc: map<Uid, Symfile>, ghost since: nat, ghost upto: nat)
      requires Valid() && uid.address != 0 && uid !in acc0 && from <= t <= since0 <= upto0 <= now
      requires seqlocks ==> Lives(w, uid, since0, upto0) && AllFrom(w, entries, acc0, from, now)
      modifies this`now, this`readCount
      ensures Valid() && old(now) <= now
      ensures ok ==> old(now) <= since <= upto <= now && acc0.Keys <= acc.Keys
      ensures ok && seqlocks ==> AllFrom(w, entries, acc, from, now)
      ensures ok && seqlocks && next.address != 0 ==> Lives(w, next, since, upto)
      ensures ok && seqlocks ==> Lives(w, uid, since0, now)
      ensures ok ==> next.address == w.entry(since, uid.address).next
      ensures (NeverFails(w) && !ok ==> race) && (ok ==> !race)
      ensures ok && seqlocks && NeverFails(w) ==> Visited(w, valid, since0, since, uid, next, acc0.Keys, acc.Keys)
      ensures Calm(t, path) && Walked(w, seqlocks, t, valid, entries.Keys, path, i, uid, had, acc0.Keys) ==>
                ok && Walked(w, seqlocks, t, valid, entries.Keys, path, i + 1, next, had, acc.Keys)
      ensures Quiet(w, t) && ok && FilesAt(w, t, entries, acc0) ==> FilesAt(w, t, entries, acc)
    {
      hide AllWhole, AllFrom, Disciplined, Quiet, IsPath, Walked, Wanted, Loadable, FilesAt, SymfileAt;
      ghost var calm := Calm(t, path) && Walked(w, seqlocks, t, valid, entries.Keys, path, i, uid, had, acc0.Keys);
      if calm {
        StaysQuiet(w, t, since0, valid, uid.address);
        WalkIsLive(w, seqlocks, t, valid, entries.Keys, path, i, uid, had, acc0.Keys);
      }
      next, since, upto := uid, since0, upto0;
      ok, race, acc := TakeSymfile(uid, from, since0, upto0, acc0);
      if Quiet(w, t) {
        StaysQuiet(w, t, since0, valid, uid.address);
        FilesStay(w, t, since0, entries, acc0);
        FilesStay(w, t, since0, entries, acc);
      }
      ghost var taken := now;
      Later(old(now));
      if !ok { return; }
      if calm {
        StaysQuiet(w, t, now, valid, uid.address);
        StaysQuiet(w, t, now, valid, w.entry(t, uid.address).next);
      }
      ok, race, next, since := ReadNextField(Some(uid.address));
      upto := now;
      Later(taken);
      if !ok { return; }
      if calm {
        StaysQuiet(w, t, since, valid, uid.address);
        StaysQuiet(w, t, since, valid, next.address);
        StaysQuiet(w, t, upto, valid, uid.address);
      }
      ok, race := CheckSeqlock(uid);
      Later(upto);
      if !ok { return; }
      if seqlocks {
        AllFromLater(w, entries, acc, from, taken, now);
        LivesOn(w, uid, since0, upto0, now);
      }
      if calm {
        WalkOn(w, seqlocks, t, valid, entries.Keys, path, i, uid, had, acc0.Keys, next, acc.Keys);
      }
    }

    /** Reads new entries from the head of the list until one that is known.
        `fuel` bounds the entries visited. */
    method ReadNewEntries(acc0: map<Uid, Symfile>, fuel: nat, ghost from: nat, ghost path: seq<nat>,
                          ghost list: nat -> seq<nat>)
      returns (ok: bool, race: bool, acc: map<Uid, Symfile>, ghost s: nat)
      requires Valid() && from <= now
      requires seqlocks ==> AllFrom(w, entries, acc0, from, now)
      requires Concurrent(list) ==> Settled(w, list, valid, now, acc0.Keys)
      modifies this`now, this`readCount
      ensures Valid() && old(now) <= now
      ensures ok && seqlocks ==> AllFrom(w, entries, acc, from, now)
      ensures ok ==> acc0.Keys <= acc.Keys
      ensures ok && Concurrent(list) ==>
                && old(now) <= s <= now && Settled(w, list, valid, now, acc.Keys)
                && Complete(w, list, valid, s, now, acc.Keys)
      ensures (!ok && Concurrent(list) && AtMost(list, fuel) ==> race) && (ok ==> !race)
      ensures Calm(old(now), path) && |path| <= fuel ==>
                && ok && (FilesAt(w, old(now), entries, acc0) ==> FilesAt(w, old(now), entries, acc))
                && acc.Keys <= acc0.Keys + Wanted(w, seqlocks, old(now), valid, entries.Keys, path, |path|)
                && (acc0 == map[] ==> acc.Keys == Wanted(w, seqlocks, old(now), valid, entries.Keys, path, |path|))
    {
      hide AllWhole, AllFrom, Disciplined, Quiet, IsPath, Walked, Wanted, Loadable, Lives;
      hide Written, NeverFails, Settled, Complete, Walking, Visited, AtMost, Left, FilesAt;
      ghost var t, calm := now, Calm(now, path);
      if calm {
        WalkStarts(w, seqlocks, t, valid, entries.Keys, path, acc0.Keys);
      }
      acc, s := acc0, now;
      ghost var since, upto;
      var uid;
      ok, race, uid, since := ReadNextField(None);
      upto := now;
      Later(t);
      if !ok { return; }
      if seqlocks {
        AllFromLater(w, entries, acc, from, t, now);
      }
      if calm {
        StaysQuiet(w, t, since, valid, uid.address);
      }
      s := since;
      if Concurrent(list) {
        SettledLater(w, list, valid, t, s, acc.Keys);
        LivesAt(w, uid, since, upto);
        WalkBegins(w, list, valid, s, acc.Keys, uid);
        if AtMost(list, fuel) {
          FitsAtFirst(list, s, uid.address, fuel);
        }
      }
      var left := fuel;
      ghost var i := 0;
      while uid.address != 0 && uid !in acc
        invariant ok && !race && Valid() && t <= since <= upto <= now
        invariant seqlocks ==> AllFrom(w, entries, acc, from, now)
        invariant acc0.Keys <= acc.Keys
        invariant seqlocks && uid.address != 0 ==> Lives(w, uid, since, upto)
        invariant calm ==> Walked(w, seqlocks, t, valid, entries.Keys, path, i, uid, acc0.Keys, acc.Keys)
        invariant calm && FilesAt(w, t, entries, acc0) ==> FilesAt(w, t, entries, acc)
        invariant t <= s <= since
        invariant Concurrent(list) ==> Walking(w, list, valid, s, since, acc0.Keys, acc.Keys, uid)
        invariant Concurrent(list) && AtMost(list, fuel) ==> Fits(list, since, uid.address, left)
        invariant left + i == fuel
        decreases left
      {
        if calm {
          WalkIsLive(w, seqlocks, t, valid, entries.Keys, path, i, uid, acc0.Keys, acc.Keys);
        }
        if Concurrent(list) && AtMost(list, fuel) {
          NotOverYet(w, list, valid, s, since, acc0.Keys, acc.Keys, uid, left);
        }
        if left == 0 {
          return false, false, acc, s;
        }
        ghost var uid0, acc1, since0 := uid, acc.Keys, since;
        ok, race, uid, acc, since, upto := Visit(uid, acc, from, since, upto, t, path, i, acc0.Keys);
        if !ok { return; }
        left, i := left - 1, i + 1;
        if Concurrent(list) {
          WalkHere(w, list, valid, s, since0, acc0.Keys, acc1, uid0);
          WalkNearsEnd(w, list, valid, since0, since, uid0, uid, acc1, acc.Keys);
          WalkGoesOn(w, list, valid, s, since0, since, uid0, uid, acc0.Keys, acc1, acc.Keys);
        }
      }
      if Concurrent(list) {
        WalkIsComplete(w, list, valid, s, since, acc0.Keys, acc.Keys, uid);
        SettledLater(w, list, valid, since, now, acc.Keys);
        CompleteLater(w, list, valid, s, since, now, acc.Keys);
      }
      if calm {
        WalkEnds(w, seqlocks, t, valid, entries.Keys, path, i, uid, acc0.Keys, acc.Keys);
      }
    }

    /** Passes over the list until one brings nothing new; only then replaces the
        entries held. */
    method ReadAllOnce(fuel: nat, ghost path: seq<nat>, ghost list: nat -> seq<nat>)
      returns (ok: bool, race: bool, ghost s: nat, ghost passes: nat)
      requires Valid()
      modifies this
      ensures Valid() && old(now) <= now
      ensures !ok ==> entries == old(entries)
      ensures ok && seqlocks ==> AllFrom(w, old(entries), entries, old(now), now)
      ensures ok && Concurrent(list) ==> old(now) <= s <= now && Complete(w, list, valid, s, now, entries.Keys)
      ensures !ok && Concurrent(list) && AtMost(list, fuel) ==> race || passes == 16
      ensures Calm(old(now), path) && |path| <= fuel ==>
                && ok && entries.Keys == Wanted(w, seqlocks, old(now), valid, old(entries).Keys, path, |path|)
                && FilesAt(w, old(now), old(entries), entries)
    {
      hide AllWhole, AllFrom, Disciplined, IsPath, Wanted, Loadable, Quiet, Written, NeverFails, Settled, Complete;
      hide SymfileAt;
      ghost var t, calm := now, Calm(now, path) && |path| <= fuel;
      ghost var wanted := Wanted(w, seqlocks, t, valid, entries.Keys, path, |path|);
      var found: map<Uid, Symfile> := map[];
      ok, race, s, passes := true, false, now, 0;
      if seqlocks {
        AllFromNone(w, entries, t, now);
        NothingHeld(w, list, valid, now);
        assert found.Keys == {};
      }
      for i := 0 to MAX_HEAD_RETRIES
        invariant t <= now && Valid() && entries == old(entries)
        invariant seqlocks ==> AllFrom(w, entries, found, t, now)
        invariant i == 0 ==> found == map[]
        invariant passes == i && !race
        invariant Concurrent(list) ==> Settled(w, list, valid, now, found.Keys)
        invariant calm ==> i <= 1 && (i == 1 ==> found.Keys == wanted) && FilesAt(w, t, entries, found)
      {
        if calm {
          StaysCalm(t, now, path);
          FilesStay(w, t, now, entries, found);
        }
        ghost var t1 := now;
        var had := |found|;
        ghost var keys := found.Keys;
        ok, race, found, s := ReadNewEntries(found, fuel, t, path, list);
        passes := passes + 1;
        if !ok { return; }
        if calm {
          FilesStay(w, t, t1, entries, found);
          assert i == 1 ==> found.Keys == keys;
        }
        if |found| == had {
          if seqlocks {
            AllFromIsWhole(w, entries, found, t, now);
          }
          entries := found;
          return;
        }
      }
      ok := false;
    }

    /** Reads all entries, again after a race. On success every entry held is a
        whole symbol file of one version, and each new one kept its lock from the
        read of its address until it was copied; on failure nothing is replaced.
        Under writers, every loadable entry that was linked at `s`, when the last
        pass read the head, and is linked under the same lock now is held; and it
        fails only after sixteen races or sixteen passes that each found more. */
    method ReadAllEntries(fuel: nat, ghost path: seq<nat>, ghost list: nat -> seq<nat>)
      returns (ok: bool, ghost s: nat, ghost races: nat, ghost passes: nat)
      requires Valid()
      modifies this
      ensures Valid() && old(now) <= now
      ensures !ok ==> entries == old(entries)
      ensures ok && seqlocks ==> AllFrom(w, old(entries), entries, old(now), now)
      ensures ok && Concurrent(list) ==> old(now) <= s <= now && Complete(w, list, valid, s, now, entries.Keys)
      ensures !ok && Concurrent(list) && AtMost(list, fuel) ==> races == 16 || passes == 16
      ensures Calm(old(now), path) && |path| <= fuel ==>
                && ok && entries.Keys == Wanted(w, seqlocks, old(now), valid, old(entries).Keys, path, |path|)
                && FilesAt(w, old(now), old(entries), entries)
    {
      s, races, passes := now, 0, 0;
      for i := 0 to MAX_RACE_RETRIES
        invariant races == i
        invariant Valid() && old(now) <= now && entries == old(entries)
        invariant Calm(old(now), path) && |path| <= fuel ==> i == 0 && now == old(now)
      {
        hide AllWhole, AllFrom, Disciplined, IsPath, Wanted, Loadable, Quiet, Written, NeverFails, Complete;
        hide FilesAt;
        var race;
        ghost var t := now;
        ok, race, s, passes := ReadAllOnce(fuel, path, list);
        if ok && seqlocks {
          AllFromEarlier(w, old(entries), entries, old(now), t, now);
        }
        if ok || !race {
          return;
        }
        races := races + 1;
      }
      ok := false;
    }
  }
}
