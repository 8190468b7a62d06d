/** The answer cache of the AI orchestrator (ai-orchestrator/app/main.py): bounded in size, the
    oldest entry making room, and in age. */
module OrchestratorCache {
  import opened Basics

  datatype Entry<V> = Entry(stored: int, value: V)

  datatype Write<V> = Write(key: string, time: int, value: V)

  /** The index of the last write to the key, or -1. */
  function LastWrite<V>(history: seq<Write<V>>, key: string): (i: int)
    ensures -1 <= i < |history|
    ensures i >= 0 ==> history[i].key == key
  {
    if history == [] then -1
    else if history[|history| - 1].key == key then |history| - 1
    else LastWrite(history[..|history| - 1], key)
  }

  lemma {:induction false} LastWriteIsLast<V>(history: seq<Write<V>>, key: string)
    ensures forall j :: LastWrite(history, key) < j < |history| ==> history[j].key != key
  {
    if history != [] && history[|history| - 1].key != key {
      LastWriteIsLast(history[..|history| - 1], key);
      assert forall j :: 0 <= j < |history| - 1 ==> history[..|history| - 1][j] == history[j];
    }
  }

  ghost predicate Rising<V>(history: seq<Write<V>>) {
    forall i, j :: 0 <= i < j < |history| ==> history[i].time < history[j].time
  }

  ghost predicate InTime<V>(history: seq<Write<V>>) {
    forall i, j :: 0 <= i < j < |history| ==> history[i].time <= history[j].time
  }

  ghost function KeysWritten<V>(history: seq<Write<V>>): set<string> {
    set i | 0 <= i < |history| :: history[i].key
  }

  lemma {:induction false} FewKeys<V>(history: seq<Write<V>>)
    ensures |KeysWritten(history)| <= |history|
  {
    if history == [] {
      assert KeysWritten(history) == {};
    } else {
      var front := history[..|history| - 1];
      FewKeys(front);
      var last := history[|history| - 1];
      forall k | k in KeysWritten(history) ensures k in KeysWritten(front) + {last.key} {
        var i :| 0 <= i < |history| && history[i].key == k;
        assert i < |front| ==> front[i].key == k;
      }
      assert KeysWritten(history) <= KeysWritten(front) + {last.key};
      SubsetSize(KeysWritten(history), KeysWritten(front) + {last.key});
    }
  }

  /** Entry by entry, the last write of its key. */
  ghost predicate HoldsLastWrites<V>(entries: map<string, Entry<V>>, history: seq<Write<V>>) {
    forall k :: k in entries ==>
      var i := LastWrite(history, k);
      i >= 0 && entries[k] == Entry(history[i].time, history[i].value)
  }

  /** One of the last `cap` writes, and its key not written again. */
  predicate Recent<V>(history: seq<Write<V>>, key: string, cap: int) {
    LastWrite(history, key) >= 0 && |history| - LastWrite(history, key) <= cap
  }

  /** A recent write is missing only if it is no newer than `limit`. */
  ghost predicate KeepsRecent<V>(entries: map<string, Entry<V>>, history: seq<Write<V>>, cap: int, limit: int) {
    forall k :: Recent(history, k, cap) && k !in entries ==> history[LastWrite(history, k)].time <= limit
  }

  lemma LastAfter<V>(history: seq<Write<V>>, w: Write<V>, k: string)
    ensures LastWrite(history + [w], k) == if k == w.key then |history| else LastWrite(history, k)
  {
    assert (history + [w])[..|history|] == history;
  }

  /** Writing keeps the account, if the entry that made room was `cap` - 1 writes old. */
  lemma WriteKeeps<V>(entries: map<string, Entry<V>>, history: seq<Write<V>>, w: Write<V>, room: map<string, Entry<V>>, cap: int, limit: int, limit': int)
    requires HoldsLastWrites(entries, history) && limit <= limit'
    requires room.Keys <= entries.Keys && forall k :: k in room ==> room[k] == entries[k]
    ensures HoldsLastWrites(room[w.key := Entry(w.time, w.value)], history + [w])
    ensures KeepsRecent(entries, history, cap, limit) && (forall k :: k in entries && k !in room ==> !Recent(history, k, cap - 1))
            ==> KeepsRecent(room[w.key := Entry(w.time, w.value)], history + [w], cap, limit')
  {
    var next := room[w.key := Entry(w.time, w.value)];
    forall k | k in next
      ensures LastWrite(history + [w], k) >= 0
      ensures next[k] == Entry((history + [w])[LastWrite(history + [w], k)].time, (history + [w])[LastWrite(history + [w], k)].value)
    {
      LastAfter(history, w, k);
    }
    if KeepsRecent(entries, history, cap, limit) && forall k :: k in entries && k !in room ==> !Recent(history, k, cap - 1) {
      forall k | Recent(history + [w], k, cap) && k !in next
        ensures (history + [w])[LastWrite(history + [w], k)].time <= limit'
      {
        LastAfter(history, w, k);
        assert Recent(history, k, cap - 1) && Recent(history, k, cap);
      }
    }
  }

  lemma RisingFront<V>(history: seq<Write<V>>, w: Write<V>)
    requires Rising(history + [w])
    ensures Rising(history)
  {
    forall i, j | 0 <= i < j < |history| ensures history[i].time < history[j].time {
      assert (history + [w])[i].time < (history + [w])[j].time;
    }
  }

  /** With all other entries newer than a key's last write, that write is `cap` writes old. */
  lemma NewerEntriesNeedWrites<V>(entries: map<string, Entry<V>>, history: seq<Write<V>>, key: string)
    requires InTime(history) && HoldsLastWrites(entries, history) && key in entries
    requires forall k :: k in entries && k != key ==> LastWrite(history, k) > LastWrite(history, key)
    ensures |entries| <= |history| - LastWrite(history, key)
  {
    var i := LastWrite(history, key);
    var later := history[i + 1..];
    forall k | k in entries.Keys - {key} ensures k in KeysWritten(later) {
      assert later[LastWrite(history, k) - i - 1].key == k;
    }
    SubsetSize(entries.Keys - {key}, KeysWritten(later));
    FewKeys(later);
    assert |entries.Keys - {key}| == |entries| - 1;
  }

  /** As far as the clock ticks between writes, every recent write is there until it expires. */
  ghost predicate Sound<V>(entries: map<string, Entry<V>>, history: seq<Write<V>>, now: int, cap: int, ttl: int) {
    && |entries| <= (if cap > 0 then cap else 0)
    && InTime(history) && (forall i :: 0 <= i < |history| ==> history[i].time <= now)
    && HoldsLastWrites(entries, history)
    && (Rising(history) ==> KeepsRecent(entries, history, cap, now - ttl))
  }

  lemma OldestIsNotRecent<V>(entries: map<string, Entry<V>>, history: seq<Write<V>>, cap: int, oldest: string)
    requires InTime(history) && HoldsLastWrites(entries, history) && Rising(history) && |entries| >= cap
    requires oldest in entries && forall k :: k in entries ==> entries[oldest].stored <= entries[k].stored
    ensures !Recent(history, oldest, cap - 1)
  {
    forall k | k in entries && k != oldest ensures LastWrite(history, k) > LastWrite(history, oldest) {
      assert entries[oldest].stored <= entries[k].stored;
    }
    NewerEntriesNeedWrites(entries, history, oldest);
  }

  /** Room for one more: as it is, or without the oldest entry. */
  ghost predicate MakesRoom<V>(entries: map<string, Entry<V>>, room: map<string, Entry<V>>, cap: int) {
    if |entries| < cap then room == entries
    else
      exists oldest :: oldest in entries && room == entries - {oldest}
        && forall k :: k in entries ==> entries[oldest].stored <= entries[k].stored
  }

  lemma WriteIsSound<V>(entries: map<string, Entry<V>>, history: seq<Write<V>>, now: int, cap: int, ttl: int, room: map<string, Entry<V>>, w: Write<V>)
    requires Sound(entries, history, now, cap, ttl) && MakesRoom(entries, room, cap) && w.time >= now && cap > 0
    ensures Sound(room[w.key := Entry(w.time, w.value)], history + [w], w.time, cap, ttl)
  {
    if |entries| >= cap {
      var oldest :| oldest in entries && room == entries - {oldest}
        && forall k :: k in entries ==> entries[oldest].stored <= entries[k].stored;
      assert room.Keys == entries.Keys - {oldest};
      if Rising(history) {
        OldestIsNotRecent(entries, history, cap, oldest);
      }
    }
    WriteKeeps(entries, history, w, room, cap, now - ttl, w.time - ttl);
    if Rising(history + [w]) {
      RisingFront(history, w);
    }
    OneMore(room, w.key, Entry(w.time, w.value));
  }

  lemma OneMore<V>(m: map<string, Entry<V>>, key: string, e: Entry<V>)
    ensures |m[key := e]| <= |m| + 1
  {
    assert m[key := e].Keys == m.Keys + {key};
    assert |m[key := e]| == |m[key := e].Keys| && |m| == |m.Keys|;
    if key in m {
      assert m.Keys + {key} == m.Keys;
    }
  }

  class Cache<V(==)> {
    const cap: int
    const ttl: int
    var entries: map<string, Entry<V>>
    ghost var history: seq<Write<V>>
    ghost var now: int

    ghost predicate Valid() reads this {
      Sound(entries, history, now, cap, ttl)
    }

    constructor (cap: int, ttl: int)
      ensures Valid() && this.cap == cap && this.ttl == ttl && history == [] && entries == map[]
    {
      this.cap := cap;
      this.ttl := ttl;
      entries := map[];
      history := [];
      now := 0;
    }

    /** What is found is the last value written, and not yet expired; and one of the last `cap`
        writes is found until it expires. */
    method Get(key: string, time: int) returns (found: Option<V>)
      requires Valid() && time >= now
      modifies this
      ensures Valid() && history == old(history) && now == time
      ensures found.Some? ==>
                var i := LastWrite(history, key);
                i >= 0 && found.value == history[i].value && time - history[i].time < ttl
      ensures Rising(history) && Recent(history, key, cap) && time - history[LastWrite(history, key)].time < ttl ==>
                found.Some?
      ensures forall k :: k != key ==> (k in entries <==> k in old(entries))
    {
      now := time;
      if key in entries {
        var entry := entries[key];
        if time - entry.stored < ttl {
          return Some(entry.value);
        }
        entries := entries - {key};
        SubsetSize(entries.Keys, old(entries).Keys);
      }
      return None;
    }

    method Oldest() returns (oldest: string)
      requires entries != map[]
      ensures oldest in entries && forall k :: k in entries ==> entries[oldest].stored <= entries[k].stored
    {
      oldest :| oldest in entries;
      var rest := entries.Keys - {oldest};
      while rest != {}
        invariant oldest in entries && rest <= entries.Keys
        invariant forall k :: k in entries && k !in rest ==> entries[oldest].stored <= entries[k].stored
        decreases rest
      {
        var k :| k in rest;
        rest := rest - {k};
        if entries[k].stored < entries[oldest].stored {
          oldest := k;
        }
      }
    }

    method Room() returns (room: Option<map<string, Entry<V>>>)
      requires Valid()
      ensures room.Some? == (cap > 0)
      ensures room.Some? ==> MakesRoom(entries, room.value, cap)
      ensures room.Some? ==> forall k :: k in room.value ==> k in entries && room.value[k] == entries[k]
    {
      if |entries| < cap {
        return Some(entries);
      }
      if entries == map[] {
        return None;
      }
      var oldest := Oldest();
      return Some(entries - {oldest});
    }

    /** A full cache forgets its oldest entry first, even when the key is already there. Without
        any room the write fails: there is no oldest entry to forget. */
    method Set(key: string, time: int, value: V) returns (ok: bool)
      requires Valid() && time >= now
      modifies this
      ensures Valid() && ok == (cap > 0)
      ensures !ok ==> history == old(history) && entries == old(entries)
      ensures ok ==> history == old(history) + [Write(key, time, value)] && now == time
      ensures ok ==> key in entries && entries[key] == Entry(time, value)
      ensures ok ==> exists room :: MakesRoom(old(entries), room, cap) && entries == room[key := Entry(time, value)]
      ensures forall k :: k in entries && k != key ==> k in old(entries) && entries[k] == old(entries)[k]
    {
      var room := Room();
      if room.None? {
        return false;
      }
      WriteIsSound(entries, history, now, cap, ttl, room.value, Write(key, time, value));
      entries := room.value[key := Entry(time, value)];
      history := history + [Write(key, time, value)];
      now := time;
      return true;
    }
  }
}
