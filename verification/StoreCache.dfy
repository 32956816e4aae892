/** The store itself: slots in memory, dirty flags, and a backend whose saves and flushes may fail. */
module StoreCache {
  import opened Basics
  import opened Store

  datatype Slot = Slot(value: Setting, dirty: bool)

  datatype Error = Fine | InvalidArg | InvalidState

  function Lookup(m: map<Text, Text>, key: Text): Option<Text> { if key in m then Some(m[key]) else None }

  // ---------------------------------------------------------------- coherence

  /** Every slot that is not dirty holds what reloading from `mem` would give. */
  ghost predicate Mirrors(table: seq<Desc>, ss: seq<Slot>, mem: map<Text, Text>, ulong: nat) {
    |ss| == |table| && forall i :: 0 <= i < |ss| && !ss[i].dirty ==>
      ss[i].value == Restored(table[i], Lookup(mem, table[i].key), ulong)
  }

  ghost predicate AllFit(table: seq<Desc>, ss: seq<Slot>) {
    |ss| == |table| && forall i :: 0 <= i < |ss| ==> Fits(table[i], ss[i].value)
  }

  predicate NoneDirty(ss: seq<Slot>) { forall i :: 0 <= i < |ss| ==> !ss[i].dirty }

  function Values(ss: seq<Slot>): seq<Setting> {
    seq(|ss|, i requires 0 <= i < |ss| => ss[i].value)
  }

  /** What a start from this medium gives. */
  function Reload(table: seq<Desc>, medium: map<Text, Text>, ulong: nat): seq<Setting> {
    seq(|table|, i requires 0 <= i < |table| => Restored(table[i], Lookup(medium, table[i].key), ulong))
  }

  /** Writing a setting to the backend makes its slot clean and disturbs no other. */
  lemma SaveKeeps(table: seq<Desc>, ss: seq<Slot>, mem: map<Text, Text>, ulong: nat, i: nat)
    requires TableOk(table) && U32 <= ulong + 1 && i < |ss|
    requires Mirrors(table, ss, mem, ulong) && AllFit(table, ss)
    ensures Mirrors(table, ss[i := ss[i].(dirty := false)], mem[table[i].key := ToText(ss[i].value)], ulong)
    ensures AllFit(table, ss[i := ss[i].(dirty := false)])
  {
    hide Restored, ToText, Fits;
    SavedIsRestored(table[i], ss[i].value, ulong);
    var next := ss[i := ss[i].(dirty := false)];
    forall k | 0 <= k < |ss| && k != i && !next[k].dirty
      ensures Lookup(mem[table[i].key := ToText(ss[i].value)], table[k].key) == Lookup(mem, table[k].key)
    {
      assert table[k].key != table[i].key;
    }
  }

  lemma CleanIsReloaded(table: seq<Desc>, ss: seq<Slot>, mem: map<Text, Text>, ulong: nat)
    requires Mirrors(table, ss, mem, ulong) && NoneDirty(ss)
    ensures Values(ss) == Reload(table, mem, ulong)
  {}

  /** A change to one slot. */
  lemma ChangeKeeps(table: seq<Desc>, ss: seq<Slot>, mem: map<Text, Text>, ulong: nat, i: nat, v: Setting)
    requires Mirrors(table, ss, mem, ulong) && i < |ss|
    ensures Mirrors(table, ss[i := Slot(v, true)], mem, ulong)
  {}

  lemma StillFit(table: seq<Desc>, ss: seq<Slot>, i: nat)
    requires AllFit(table, ss) && i < |ss|
    ensures AllFit(table, ss[i := ss[i].(dirty := false)])
  {}

  lemma FitKeeps(table: seq<Desc>, ss: seq<Slot>, i: nat, v: Setting)
    requires AllFit(table, ss) && i < |ss| && Fits(table[i], v)
    ensures AllFit(table, ss[i := Slot(v, true)])
  {}

  // ---------------------------------------------------------------- the backend

  /**
   * What an attempt to erase the backend does: whether loads see nothing any more, whether the medium is empty,
   * and whether success is reported.
   */
  datatype Erasing = Erasing(seen: bool, gone: bool, claims: bool)

  predicate Reported(e: Erasing) { e.claims && e.seen }

  /** `mem` is what loads see; `disk` is what the next start will see. */
  class Backend {
    var disk: map<Text, Text>
    var mem: map<Text, Text>
    var open: bool

    constructor (medium: map<Text, Text>)
      ensures disk == medium && !open
    {
      disk, mem, open := medium, map[], false;
    }

    method Open(works: bool) returns (ok: bool)
      modifies this
      ensures disk == old(disk) && open == ok == works && (ok ==> mem == disk)
    {
      open := works;
      if works { mem := disk; }
      ok := works;
    }

    method Close()
      modifies this
      ensures disk == old(disk) && !open
    {
      open := false;
      mem := map[];
    }

    method Load(key: Text) returns (text: Option<Text>)
      ensures text == if open && key in mem then Some(Clipped(mem[key], STR_MAX - 1)) else None
    {
      text := if open && key in mem then Some(Clipped(mem[key], STR_MAX - 1)) else None;
    }

    method Save(key: Text, value: Text) returns (ok: bool)
      modifies this
      ensures open == old(open) && disk == old(disk) && (ok ==> open)
      ensures mem == if ok then old(mem)[key := value] else old(mem)
    {
      ok := *;
      ok := ok && open;
      if ok { mem := mem[key := value]; }
    }

    method Flush(works: bool) returns (ok: bool)
      modifies this
      ensures open == old(open) && mem == old(mem) && ok == (works && open)
      ensures disk == if ok then mem else old(disk)
    {
      ok := works && open;
      if ok { disk := mem; }
    }

    /**
     * The host's file is removed without a look at the result, open or not; the flash's pairs are erased and
     * the erasure committed, either of which may fail.  So success empties what loads see, not always the medium.
     */
    method EraseAll(e: Erasing) returns (ok: bool)
      modifies this
      ensures open == old(open) && ok == Reported(e)
      ensures mem == (if e.seen then map[] else old(mem)) && disk == (if e.gone then map[] else old(disk))
    {
      if e.seen { mem := map[]; }
      if e.gone { disk := map[]; }
      ok := e.claims && e.seen;
    }
  }

  // ---------------------------------------------------------------- the cache

  class Cache {
    const table: seq<Desc>
    const ulong: nat
    const backend: Backend
    const slots: array<Slot>
    var ready: bool
    var dirty: bool
    var dirtySince: nat

    ghost predicate Valid()
      reads this, slots
    {
      && TableOk(table) && U32 <= ulong + 1 && slots.Length == |table|
      && (if ready then AllFit(table, slots[..]) && (!dirty ==> NoneDirty(slots[..])) else !dirty)
    }

    /** With an open backend, clean slots mirror it, and a clean store has nothing left to flush. */
    ghost predicate Coherent()
      reads this, slots, backend
    {
      ready && backend.open ==> Mirrors(table, slots[..], backend.mem, ulong) && (!dirty ==> backend.mem == backend.disk)
    }

    constructor (descs: seq<Desc>, unsignedLongMax: nat, b: Backend)
      requires TableOk(descs) && U32 <= unsignedLongMax + 1
      ensures Valid() && Coherent() && !ready && table == descs && backend == b && fresh(slots) && ulong == unsignedLongMax
    {
      table, ulong, backend := descs, unsignedLongMax, b;
      slots := new Slot[|descs|](_ => Slot(Num(0), false));
      ready, dirty, dirtySince := false, false, 0;
    }

    /** `nev_store_init`: what the backend holds, or defaults where it holds nothing or does not open. */
    method Init(opens: bool)
      requires Valid()
      modifies this, slots, backend
      ensures Valid() && ready && (Coherent() || old(ready))
      ensures old(ready) ==> slots[..] == old(slots[..]) && dirty == old(dirty) && (old(Coherent()) ==> Coherent())
      ensures !old(ready) ==> !dirty && NoneDirty(slots[..]) && backend.disk == old(backend.disk) && backend.open == opens
      ensures !old(ready) ==> Values(slots[..]) == Reload(table, if opens then backend.disk else map[], ulong)
    {
      hide Restored, Fits;
      if ready { return; }
      ApplyDefaults();
      var ok := backend.Open(opens);
      if !ok {
        ready := true;
        assert slots[..] == Fresh(map[]);
        FreshIsCoherent(map[]);
        return;
      }
      var i := 0;
      while i < |table|
        invariant i <= |table| && slots.Length == |table| && backend.open && backend.mem == backend.disk == old(backend.disk)
        invariant forall k :: 0 <= k < i ==> slots[k] == Fresh(backend.mem)[k]
        invariant forall k :: i <= k < |table| ==> slots[k] == Fresh(map[])[k]
      {
        var text := backend.Load(table[i].key);
        LoadIsRestore(table[i], backend.mem);
        if text.Some? { slots[i] := Slot(FromText(table[i], text.value, ulong), false); }
        i := i + 1;
      }
      ready := true;
      dirty := false;
      assert slots[..] == Fresh(backend.mem);
      FreshIsCoherent(backend.mem);
    }

    /** All slots clean and as a start from `medium` gives them. */
    ghost function Fresh(medium: map<Text, Text>): (ss: seq<Slot>)
      ensures |ss| == |table|
    {
      seq(|table|, i requires 0 <= i < |table| => Slot(Restored(table[i], Lookup(medium, table[i].key), ulong), false))
    }

    lemma FreshIsCoherent(medium: map<Text, Text>)
      requires TableOk(table)
      ensures var ss := Fresh(medium);
              && AllFit(table, ss) && NoneDirty(ss) && Mirrors(table, ss, medium, ulong) && Values(ss) == Reload(table, medium, ulong)
    {
      hide Restored, Fits;
      forall i | 0 <= i < |table| ensures Fits(table[i], Fresh(medium)[i].value) {
        RestoredFits(table[i], Lookup(medium, table[i].key), ulong);
      }
    }

    lemma LoadIsRestore(d: Desc, medium: map<Text, Text>)
      ensures Restored(d, Lookup(medium, d.key), ulong) ==
              if d.key in medium then FromText(d, Clipped(medium[d.key], STR_MAX - 1), ulong) else Restored(d, None, ulong)
      ensures Restored(d, None, ulong) == FromText(d, d.default, ulong)
    {}

    method ApplyDefaults()
      requires slots.Length == |table|
      modifies slots
      ensures slots[..] == Fresh(map[])
    {
      hide Restored, FromText;
      var i := 0;
      while i < |table|
        invariant i <= |table| && forall k :: 0 <= k < i ==> slots[k] == Fresh(map[])[k]
      {
        LoadIsRestore(table[i], map[]);
        slots[i] := Slot(FromText(table[i], table[i].default, ulong), false);
        i := i + 1;
      }
    }

    method MarkDirty(key: nat, v: Setting)
      requires Valid() && ready && key < |table| && Fits(table[key], v)
      modifies this, slots
      ensures Valid() && ready && dirty && dirtySince == 0 && slots[..] == old(slots[..])[key := Slot(v, true)]
      ensures old(Coherent()) ==> Coherent()
    {
      hide Restored, Fits;
      FitKeeps(table, slots[..], key, v);
      if backend.open && Coherent() { ChangeKeeps(table, slots[..], backend.mem, ulong, key, v); }
      slots[key] := Slot(v, true);
      assert slots[..] == old(slots[..])[key := Slot(v, true)];
      dirty := true;
      dirtySince := 0;
    }

    /** `nev_store_set_num`: clamped, and a change only if the clamped value differs. */
    method SetNum(key: int, value: nat) returns (err: Error, changed: bool)
      requires Valid()
      modifies this, slots
      ensures Valid() && (old(Coherent()) ==> Coherent())
      ensures err == if !(0 <= key < |table|) || table[key].isText then InvalidArg else if !old(ready) then InvalidState else Fine
      ensures err != Fine ==> !changed
      ensures changed ==> slots[..] == old(slots[..])[key := Slot(Num(Clamp(table[key], value)), true)] && dirty && dirtySince == 0
      ensures !changed ==> slots[..] == old(slots[..]) && dirty == old(dirty) && dirtySince == old(dirtySince)
      ensures err == Fine ==> slots[key].value == Num(Clamp(table[key], value))
                              && changed == (old(slots[key].value) != slots[key].value)
    {
      changed := false;
      if !(0 <= key < |table|) || table[key].isText { return InvalidArg, false; }
      if !ready { return InvalidState, false; }
      var v := Num(Clamp(table[key], value));
      if v == slots[key].value { return Fine, false; }
      MarkDirty(key, v);
      err, changed := Fine, true;
    }

    /** `nev_store_set_str`: too long is refused, never cut. */
    method SetStr(key: int, text: Text) returns (err: Error, changed: bool)
      requires Valid()
      modifies this, slots
      ensures Valid() && (old(Coherent()) ==> Coherent())
      ensures err == if !(0 <= key < |table|) || !table[key].isText then InvalidArg
                     else if !old(ready) then InvalidState
                     else if |text| > Limit(table[key]) then InvalidArg
                     else Fine
      ensures err != Fine ==> !changed
      ensures changed ==> slots[..] == old(slots[..])[key := Slot(Str(text), true)] && dirty && dirtySince == 0
      ensures !changed ==> slots[..] == old(slots[..]) && dirty == old(dirty) && dirtySince == old(dirtySince)
      ensures err == Fine ==> slots[key].value == Str(text) && changed == (old(slots[key].value) != slots[key].value)
    {
      changed := false;
      if !(0 <= key < |table|) || !table[key].isText { return InvalidArg, false; }
      if !ready { return InvalidState, false; }
      if |text| > Limit(table[key]) { return InvalidArg, false; }
      if Str(text) == slots[key].value { return Fine, false; }
      MarkDirty(key, Str(text));
      err, changed := Fine, true;
    }

    /**
     * `nev_store_commit`: whatever fails stays dirty and no value changes; when all is well nothing is dirty
     * and, if it was coherent, the medium holds every value.  A clean store is not written.
     */
    method Commit() returns (ok: bool)
      requires Valid()
      modifies this`dirty, slots, backend
      ensures Valid() && Values(slots[..]) == old(Values(slots[..])) && backend.open == old(backend.open)
      ensures old(Coherent()) ==> Coherent()
      ensures ok ==> !dirty
      ensures !ok ==> dirty && ready
      ensures ok && ready ==> NoneDirty(slots[..])
      ensures old(Coherent()) && ok && ready && backend.open ==> Reload(table, backend.disk, ulong) == Values(slots[..])
      ensures !old(dirty) ==> ok && backend.disk == old(backend.disk) && backend.mem == old(backend.mem)
    {
      hide Restored, Fits;
      if !ready || !dirty {
        if ready && backend.open && Coherent() { CleanIsReloaded(table, slots[..], backend.mem, ulong); }
        return true;
      }
      ok := WriteBack();
      var works := *;
      var flushed := backend.Flush(works);
      ok := ok && flushed;
      if ok {
        dirty := false;
        if old(Coherent()) { CleanIsReloaded(table, slots[..], backend.mem, ulong); }
      }
    }

    /** Saves the dirty settings one by one; a failure does not stop the others. */
    method WriteBack() returns (ok: bool)
      requires Valid() && ready && dirty
      modifies slots, backend
      ensures Valid() && Values(slots[..]) == old(Values(slots[..])) && backend.open == old(backend.open)
      ensures backend.disk == old(backend.disk) && (ok ==> NoneDirty(slots[..])) && (old(Coherent()) ==> Coherent())
    {
      hide Restored, Fits, ToText, Mirrors;
      ok := true;
      var i := 0;
      while i < |table|
        invariant i <= |table| && Valid() && Values(slots[..]) == old(Values(slots[..]))
        invariant backend.open == old(backend.open) && backend.disk == old(backend.disk) && (old(Coherent()) ==> Coherent())
        invariant ok ==> forall k :: 0 <= k < i ==> !slots[k].dirty
      {
        if slots[i].dirty {
          var saved := SaveSlot(i);
          ok := ok && saved;
        }
        i := i + 1;
      }
    }

    method SaveSlot(i: nat) returns (saved: bool)
      requires Valid() && ready && dirty && i < |table|
      modifies slots, backend
      ensures Valid() && Values(slots[..]) == old(Values(slots[..])) && backend.open == old(backend.open)
      ensures backend.disk == old(backend.disk) && (old(Coherent()) ==> Coherent())
      ensures slots[..] == if saved then old(slots[..])[i := Slot(old(slots[i]).value, false)] else old(slots[..])
    {
      hide Restored, Fits, ToText, Mirrors;
      saved := backend.Save(table[i].key, ToText(slots[i].value));
      if saved {
        if old(Coherent()) { SaveKeeps(table, old(slots[..]), old(backend.mem), ulong, i); }
        StillFit(table, slots[..], i);
        slots[i] := slots[i].(dirty := false);
        assert slots[..] == old(slots[..])[i := Slot(old(slots[i]).value, false)];
      }
    }

    /** `nev_store_tick`: the first tick after a change starts the delay, and the write waits for it. */
    method Tick(now: nat) returns (wrote: bool)
      requires Valid() && now < U32
      modifies this, slots, backend
      ensures Valid() && ready == old(ready) && Values(slots[..]) == old(Values(slots[..]))
      ensures old(Coherent()) ==> Coherent()
      ensures wrote == WritesAt(old(ready && dirty), old(dirtySince), now)
      ensures dirtySince == SinceAfter(old(ready && dirty), old(dirtySince), now)
      ensures !wrote ==> slots[..] == old(slots[..]) && dirty == old(dirty)
                         && backend.mem == old(backend.mem) && backend.disk == old(backend.disk)
    {
      wrote := false;
      if !ready || !dirty { return; }
      if dirtySince == 0 {
        dirtySince := if now != 0 then now else 1;
        return;
      }
      if (now - dirtySince) % U32 >= WRITEBACK_DELAY {
        dirtySince := 0;
        var _ := Commit();
        wrote := true;
      }
    }

    /**
     * `nev_store_factory_reset`: every setting back to its default, whatever becomes of the medium, and the
     * store clean.  `ResetHolds` says which outcomes leave it telling the truth.
     */
    method FactoryReset(e: Erasing, flushes: bool) returns (ok: bool)
      requires Valid()
      modifies this, slots, backend
      ensures Valid() && ready == old(ready) && backend.open == old(backend.open)
      ensures !old(ready) ==> !ok && slots[..] == old(slots[..]) && (old(Coherent()) ==> Coherent())
      ensures ready ==> !dirty && NoneDirty(slots[..]) && Values(slots[..]) == Reload(table, map[], ulong)
      ensures ready ==> ok == (Reported(e) && flushes && backend.open)
                        && backend.disk == (if ok || e.gone then map[] else old(backend.disk))
      ensures ready && backend.open ==> (Coherent() <==> ResetHolds(table, ulong, e, flushes, old(backend.mem), old(backend.disk)))
    {
      hide Restored, Fits;
      if !ready { return false; }
      ApplyDefaults();
      FreshIsCoherent(map[]);
      dirty := false;
      dirtySince := 0;
      ok := backend.EraseAll(e);
      if ok { ok := backend.Flush(flushes); }
      MirrorsIsReload(table, slots[..], backend.mem, ulong);
    }

    /** `nev_store_deinit`; `ok` is the commit's verdict, which the program drops. */
    method Deinit() returns (ok: bool)
      requires Valid()
      modifies this, slots, backend
      ensures Valid() && Coherent() && !ready && (old(ready) ==> !backend.open)
      ensures old(ready) && ok && old(backend.open) && old(Coherent()) ==>
                Reload(table, backend.disk, ulong) == old(Values(slots[..]))
      ensures !old(dirty) ==> ok && backend.disk == old(backend.disk)
    {
      if !ready { return true; }
      ok := Commit();
      backend.Close();
      ready, dirty := false, false;
      forall i | 0 <= i < slots.Length { slots[i] := Slot(Num(0), false); }
    }

    /** Close and open again: after a clean commit of a coherent store every setting is back. */
    method Reopen(opens: bool) returns (committed: bool)
      requires Valid() && ready && backend.open
      modifies this, slots, backend
      ensures Valid() && Coherent() && ready && backend.open == opens
      ensures committed && opens && old(Coherent()) ==> Values(slots[..]) == old(Values(slots[..])) && NoneDirty(slots[..])
      ensures !old(dirty) && opens ==> Values(slots[..]) == Reload(table, old(backend.disk), ulong)
    {
      hide Restored, Reload, Values;
      committed := Deinit();
      Init(opens);
    }

    /**
     * How long a factory reset lasts: at the next start the defaults are there exactly if it succeeded, or the
     * medium was emptied all the same, or what was left on it reads as the defaults.
     */
    method ResetThenReopen(e: Erasing, flushes: bool) returns (ok: bool)
      requires Valid() && ready && backend.open
      modifies this, slots, backend
      ensures Valid() && Coherent() && ready && backend.open && ok == (Reported(e) && flushes)
      ensures Values(slots[..]) == Reload(table, if ok || e.gone then map[] else old(backend.disk), ulong)
      ensures Values(slots[..]) == Reload(table, map[], ulong) <==>
              ok || e.gone || Reload(table, old(backend.disk), ulong) == Reload(table, map[], ulong)
    {
      hide Restored, Reload, Values;
      ok := FactoryReset(e, flushes);
      var _ := Reopen(true);
    }
  }

  /**
   * Which outcomes of a factory reset leave a clean store that tells the truth about `mem` and `disk`, what loads
   * saw and what the medium held before: success; or both emptied, or empty before; or neither emptied and both
   * the same and reading as the defaults.
   */
  ghost predicate ResetHolds(table: seq<Desc>, ulong: nat, e: Erasing, flushes: bool, mem: map<Text, Text>, disk: map<Text, Text>) {
    || (Reported(e) && flushes)
    || ((e.seen || mem == map[]) && (e.gone || disk == map[]))
    || (!e.seen && !e.gone && mem == disk && Reload(table, mem, ulong) == Reload(table, map[], ulong))
  }

  /** For a store that was coherent and clean: all of it gone, or nothing there to go, or none gone and nothing to show for it. */
  lemma ResetOfCleanHoldsIff(table: seq<Desc>, ulong: nat, e: Erasing, flushes: bool, medium: map<Text, Text>)
    ensures ResetHolds(table, ulong, e, flushes, medium, medium) <==>
            || (Reported(e) && flushes) || (e.seen && e.gone) || medium == map[]
            || (!e.seen && !e.gone && Reload(table, medium, ulong) == Reload(table, map[], ulong))
  {}

  /**
   * A reset that does not last: the erase fails, the store shows the default and counts as clean, and at the
   * next start the text that had been stored is back.
   */
  method ResetUndone(key: Text, default: Text, max: nat, stored: Text) returns (shown: Setting, back: Setting)
    requires max < U32 && |default| <= max && |default| < STR_MAX && |stored| <= max && |stored| < STR_MAX
    ensures shown == Str(default) && back == Str(stored)
  {
    var table := [Desc(key, true, default, 0, max)];
    var backend := new Backend(map[key := stored]);
    var cache := new Cache(table, U32 - 1, backend);
    cache.Init(true);
    var ok := cache.FactoryReset(Erasing(false, false, false), true);
    assert Values(cache.slots[..])[0] == Restored(table[0], None, U32 - 1);
    shown := cache.slots[0].value;
    var _ := cache.Reopen(true);
    assert Values(cache.slots[..])[0] == Restored(table[0], Some(stored), U32 - 1);
    back := cache.slots[0].value;
  }

  lemma MirrorsIsReload(table: seq<Desc>, ss: seq<Slot>, mem: map<Text, Text>, ulong: nat)
    requires |ss| == |table| && NoneDirty(ss)
    ensures Mirrors(table, ss, mem, ulong) <==> Values(ss) == Reload(table, mem, ulong)
  {
    hide Restored;
    if Values(ss) == Reload(table, mem, ulong) {
      forall i | 0 <= i < |ss| ensures ss[i].value == Restored(table[i], Lookup(mem, table[i].key), ulong) {
        assert Values(ss)[i] == Reload(table, mem, ulong)[i];
      }
    }
  }

  // ---------------------------------------------------------------- the debounce, over whole runs

  predicate WritesAt(dirty: bool, since: nat, now: nat) {
    dirty && since != 0 && (now - since) % U32 >= WRITEBACK_DELAY
  }

  function SinceAfter(dirty: bool, since: nat, now: nat): nat {
    if !dirty then since
    else if since == 0 then Stamp(now)
    else if (now - since) % U32 >= WRITEBACK_DELAY then 0
    else since
  }

  /** What the timer sees: a setting changed; a tick, with whether the write it may start succeeds. */
  datatype Event = Changed | Ticked(now: nat, saves: bool)

  datatype Timer = Timer(dirty: bool, since: nat)

  function After(t: Timer, e: Event): Timer {
    match e
    case Changed => Timer(true, 0)
    case Ticked(now, saves) => Timer(t.dirty && !(WritesAt(t.dirty, t.since, now) && saves), SinceAfter(t.dirty, t.since, now))
  }

  function Run(events: seq<Event>): Timer {
    if events == [] then Timer(false, 0) else After(Run(events[..|events| - 1]), events[|events| - 1])
  }

  /** Tick `at` started the delay that is running: nothing changed since, and the value stood then. */
  ghost predicate Started(events: seq<Event>, at: nat, since: nat) {
    && at < |events| && events[at].Ticked? && since == Stamp(events[at].now)
    && forall i :: at < i < |events| ==> !events[i].Changed?
  }

  lemma {:induction false} DelayHistory(events: seq<Event>) returns (at: nat)
    requires Run(events).dirty && Run(events).since != 0
    ensures Started(events, at, Run(events).since)
  {
    var n := |events| - 1;
    var before := events[..n];
    if Run(before).dirty && Run(before).since == 0 {
      at := n;
    } else {
      at := DelayHistory(before);
      assert events[at] == before[at] && forall i :: at < i < n ==> events[i] == before[i];
    }
  }

  /**
   * A write happens only when the settings have stood still for the delay: some earlier tick saw them, at
   * least 600 ms before on the wrapping clock, and nothing has changed since.
   */
  lemma WritesAreSettled(events: seq<Event>, now: nat) returns (at: nat)
    requires now < U32 && WritesAt(Run(events).dirty, Run(events).since, now)
    ensures at < |events| && events[at].Ticked? && forall i :: at < i < |events| ==> !events[i].Changed?
    ensures (now - Stamp(events[at].now)) % U32 >= WRITEBACK_DELAY
  {
    at := DelayHistory(events);
  }

  /** What a tick at the time `now` sets the start of the delay to; 0 stands for no delay. */
  function Stamp(now: nat): nat { if now != 0 then now else 1 }

  /** Ticks of which none comes the delay after the first. */
  ghost predicate Early(ticks: seq<Event>) {
    && ticks != [] && (forall i :: 0 <= i < |ticks| ==> ticks[i].Ticked?)
    && forall i :: 1 <= i < |ticks| ==> (ticks[i].now - Stamp(ticks[0].now)) % U32 < WRITEBACK_DELAY
  }

  lemma {:induction false} EarlyTicks(events: seq<Event>, ticks: seq<Event>)
    requires Early(ticks)
    ensures Run(events + [Changed] + ticks) == Timer(true, Stamp(ticks[0].now))
    decreases |ticks|
  {
    var n := |ticks| - 1;
    var all := events + [Changed] + ticks;
    assert all[|all| - 1] == ticks[n] && all[..|all| - 1] == events + [Changed] + ticks[..n];
    if n == 0 {
      assert (events + [Changed])[..|events|] == events;
      assert ticks[..0] == [] && events + [Changed] + [] == events + [Changed];
    } else {
      EarlyTicks(events, ticks[..n]);
    }
  }

  /**
   * And once they have, they are written: after a change, and whatever ticks came, the next tick writes
   * exactly if it comes at least 600 ms after the first of them; a tick at 0 counts as one at 1.
   */
  lemma SettledIsWrittenIff(events: seq<Event>, ticks: seq<Event>, now: nat)
    requires Early(ticks) && now < U32
    ensures var t, first := Run(events + [Changed] + ticks), ticks[0].now;
            WritesAt(t.dirty, t.since, now) <==> (now - (if first == 0 then 1 else first)) % 0x1_0000_0000 >= 600
  {
    hide Run;
    EarlyTicks(events, ticks);
  }

  /** Tick `j` saves what has changed. */
  predicate SavesAt(events: seq<Event>, j: nat)
    requires j < |events|
  {
    var t := Run(events[..j]);
    events[j].Ticked? && events[j].saves && WritesAt(t.dirty, t.since, events[j].now)
  }

  /** Change `i` has not been saved since. */
  ghost predicate Unsaved(events: seq<Event>, i: nat) {
    i < |events| && events[i].Changed? && forall j :: i < j < |events| ==> !SavesAt(events, j)
  }

  /** There is something to write exactly if a change has not been saved; a write that fails leaves it so. */
  lemma {:induction false} DirtyIff(events: seq<Event>)
    ensures Run(events).dirty <==> exists i :: Unsaved(events, i)
  {
    if events != [] {
      var n := |events| - 1;
      var before := events[..n];
      DirtyIff(before);
      forall j: nat | j < n ensures SavesAt(events, j) == SavesAt(before, j) {
        assert events[..j] == before[..j];
      }
      if events[n].Changed? {
        assert Unsaved(events, n);
      } else {
        assert forall i: nat :: i < n ==> (Unsaved(events, i) <==> Unsaved(before, i) && !SavesAt(events, n));
      }
    }
  }

  /** After one that fails, the delay starts anew. */
  lemma FailedWriteWaits(events: seq<Event>, now: nat)
    requires WritesAt(Run(events).dirty, Run(events).since, now)
    ensures Run(events + [Ticked(now, false)]) == Timer(true, 0)
  {
    assert (events + [Ticked(now, false)])[..|events|] == events;
  }
}
