/** The in-process response cache: bounded in size, least recently used out first,
    and nothing older than its time to live is returned. */
module LruCache {
  import opened Text
  import opened Sets

  type Key = string
  type Value = string
  type Time = real

  datatype Slot = Slot(key: Key, at: Time, value: Value)

  datatype Config = Config(maxsize: nat, ttl: Time)

  /** A call, with the clock reading it takes. */
  datatype Op = Get(key: Key, now: Time) | Set(key: Key, value: Value, now: Time)

  // ---- One call -----------------------------------------------------------------------

  /** Position of a key in the store, oldest first. */
  function IndexOf(store: seq<Slot>, key: Key): (r: Option<nat>)
    ensures r.None? ==> forall p :: 0 <= p < |store| ==> store[p].key != key
    ensures r.Some? ==> r.value < |store| && store[r.value].key == key
  {
    if store == [] then None
    else if store[0].key == key then Some(0)
    else
      match IndexOf(store[1..], key)
      case None => None
      case Some(p) => Some(p + 1)
  }

  function Without(store: seq<Slot>, key: Key): seq<Slot> {
    match IndexOf(store, key)
    case None => store
    case Some(p) => store[..p] + store[p + 1..]
  }

  predicate Fresh(slot: Slot, now: Time, cfg: Config) {
    now - slot.at <= cfg.ttl
  }

  function Newest(store: seq<Slot>, maxsize: nat): seq<Slot> {
    if |store| > maxsize then store[|store| - maxsize..] else store
  }

  function Apply(store: seq<Slot>, op: Op, cfg: Config): seq<Slot> {
    match op
    case Get(key, now) =>
      (match IndexOf(store, key)
       case None => store
       case Some(p) =>
         Without(store, key) + if Fresh(store[p], now, cfg) then [store[p]] else [])
    case Set(key, value, now) =>
      Newest(Without(store, key) + [Slot(key, now, value)], cfg.maxsize)
  }

  function Answer(store: seq<Slot>, key: Key, now: Time, cfg: Config): Option<Value> {
    match IndexOf(store, key)
    case None => None
    case Some(p) => if Fresh(store[p], now, cfg) then Some(store[p].value) else None
  }

  /** `_LRUCache`. */
  class Cache {
    const cfg: Config
    var store: seq<Slot>

    constructor (maxsize: nat, ttl: Time)
      ensures cfg == Config(maxsize, ttl) && store == []
    {
      cfg, store := Config(maxsize, ttl), [];
    }

    method Get(key: Key, now: Time) returns (value: Option<Value>)
      modifies this
      ensures value == Answer(old(store), key, now, cfg)
      ensures store == Apply(old(store), Op.Get(key, now), cfg)
    {
      var at := IndexOf(store, key);
      if at.None? {
        return None;
      }
      var item := store[at.value];
      store := store[..at.value] + store[at.value + 1..];
      if now - item.at > cfg.ttl {
        return None;
      }
      store := store + [item];
      return Some(item.value);
    }

    method Set(key: Key, value: Value, now: Time)
      modifies this
      ensures store == Apply(old(store), Op.Set(key, value, now), cfg)
    {
      var at := IndexOf(store, key);
      if at.Some? {
        store := store[..at.value] + store[at.value + 1..];
      }
      store := store + [Slot(key, now, value)];
      ghost var all := store;
      while |store| > cfg.maxsize
        invariant |store| <= |all| && store == all[|all| - |store|..]
        invariant |store| < |all| ==> |store| >= cfg.maxsize
      {
        store := store[1..];
      }
    }
  }

  // ---- A whole history of calls ---------------------------------------------------------

  function Init(ops: seq<Op>): seq<Op>
    requires ops != []
  {
    ops[..|ops| - 1]
  }

  function Last(ops: seq<Op>): Op
    requires ops != []
  {
    ops[|ops| - 1]
  }

  /** The store after a history of calls on an empty cache. */
  function After(ops: seq<Op>, cfg: Config): seq<Slot> {
    if ops == [] then [] else Apply(After(Init(ops), cfg), Last(ops), cfg)
  }

  ghost predicate Clocked(ops: seq<Op>) {
    forall i, j :: 0 <= i < j < |ops| ==> ops[i].now <= ops[j].now
  }

  /** What the latest `set` of the key stored. */
  function LastSet(ops: seq<Op>, key: Key): Option<Slot> {
    if ops == [] then None
    else if Last(ops).Set? && Last(ops).key == key then Some(Slot(key, Last(ops).now, Last(ops).value))
    else LastSet(Init(ops), key)
  }

  /** A `set` touches its key, and so does a `get` that finds a value. */
  predicate Touches(ops: seq<Op>, cfg: Config)
    requires ops != []
  {
    Last(ops).Set? || Answer(After(Init(ops), cfg), Last(ops).key, Last(ops).now, cfg).Some?
  }

  /** The call that touched the key last. */
  function LastTouch(ops: seq<Op>, key: Key, cfg: Config): int {
    if ops == [] then -1
    else if Touches(ops, cfg) && Last(ops).key == key then |ops| - 1
    else LastTouch(Init(ops), key, cfg)
  }

  /** The other keys touched since. */
  function TouchedSince(ops: seq<Op>, key: Key, cfg: Config): set<Key> {
    if ops == [] then {}
    else if !Touches(ops, cfg) then TouchedSince(Init(ops), key, cfg)
    else if Last(ops).key == key then {}
    else TouchedSince(Init(ops), key, cfg) + {Last(ops).key}
  }

  predicate Holds(store: seq<Slot>, key: Key) {
    IndexOf(store, key).Some?
  }

  /** Every slot is what the latest `set` of its key stored. */
  ghost predicate Faithful(ops: seq<Op>, store: seq<Slot>) {
    forall p :: 0 <= p < |store| ==> LastSet(ops, store[p].key) == Some(store[p])
  }

  /** The store is in order of last touch; so its keys are distinct. */
  ghost predicate Ordered(ops: seq<Op>, store: seq<Slot>, cfg: Config) {
    && (forall p :: 0 <= p < |store| ==> LastTouch(ops, store[p].key, cfg) >= 0)
    && (forall p, q :: 0 <= p < q < |store| ==>
          LastTouch(ops, store[p].key, cfg) < LastTouch(ops, store[q].key, cfg))
  }

  /** Why a key is not there: never set, too old, or pushed out by others. */
  ghost predicate Explained(ops: seq<Op>, key: Key, cfg: Config) {
    || LastSet(ops, key).None?
    || (ops != [] && !Fresh(LastSet(ops, key).value, Last(ops).now, cfg))
    || |TouchedSince(ops, key, cfg)| >= cfg.maxsize
  }

  ghost predicate Inv(ops: seq<Op>, cfg: Config) {
    var store := After(ops, cfg);
    && |store| <= cfg.maxsize
    && Faithful(ops, store)
    && Ordered(ops, store, cfg)
    && (forall key :: !Holds(store, key) ==> Explained(ops, key, cfg))
  }

  lemma {:induction false} LastTouchBelow(ops: seq<Op>, key: Key, cfg: Config)
    ensures LastTouch(ops, key, cfg) < |ops|
  {
    if ops != [] {
      LastTouchBelow(Init(ops), key, cfg);
    }
  }

  lemma {:induction false} TouchedLater(ops: seq<Op>, a: Key, b: Key, cfg: Config)
    requires LastTouch(ops, a, cfg) < LastTouch(ops, b, cfg)
    ensures b in TouchedSince(ops, a, cfg)
  {
    LastTouchBelow(ops, b, cfg);
    if !(Touches(ops, cfg) && Last(ops).key == b) {
      TouchedLater(Init(ops), a, b, cfg);
    }
  }

  ghost predicate Distinct(store: seq<Slot>) {
    forall p, q :: 0 <= p < q < |store| ==> store[p].key != store[q].key
  }

  /** Where the element at `p` was before the key was taken out. */
  function Shift(store: seq<Slot>, key: Key, p: nat): nat {
    match IndexOf(store, key)
    case None => p
    case Some(at) => if p >= at then p + 1 else p
  }

  ghost predicate IsShifted(store: seq<Slot>, key: Key, p: nat)
    requires p < |Without(store, key)|
  {
    var from := Shift(store, key, p);
    from < |store| && Without(store, key)[p] == store[from] && store[from].key != key
  }

  lemma OneAt(store: seq<Slot>, key: Key, p: nat)
    requires Distinct(store) && p < |store| && IndexOf(store, key) != Some(p)
    ensures store[p].key != key
  {
    hide IndexOf;
  }

  /** Taking a key out leaves the others, in order. */
  lemma WithoutIs(store: seq<Slot>, key: Key)
    requires Distinct(store)
    ensures var w := Without(store, key);
            && |w| == |store| - (if Holds(store, key) then 1 else 0)
            && forall p: nat :: p < |w| ==> IsShifted(store, key, p)
  {
    hide IndexOf, Distinct;
    forall p: nat | p < |Without(store, key)| ensures IsShifted(store, key, p) {
      OneAt(store, key, Shift(store, key, p));
    }
  }

  lemma WithoutHolds(store: seq<Slot>, key: Key, k: Key)
    requires Distinct(store)
    ensures Holds(Without(store, key), k) <==> k != key && Holds(store, k)
  {
    var w, at := Without(store, key), IndexOf(store, key);
    WithoutIs(store, key);
    if Holds(w, k) {
      var p := IndexOf(w, k).value;
      assert IsShifted(store, key, p) && store[Shift(store, key, p)].key == k;
    }
    if k != key && Holds(store, k) {
      var p := IndexOf(store, k).value;
      assert w[if at.Some? && p > at.value then p - 1 else p].key == k;
    }
  }

  lemma WithoutKeeps(ops: seq<Op>, store: seq<Slot>, key: Key, cfg: Config)
    requires Faithful(ops, store) && Ordered(ops, store, cfg)
    ensures Faithful(ops, Without(store, key)) && Ordered(ops, Without(store, key), cfg)
  {
    hide LastSet, LastTouch, Without;
    WithoutIs(store, key);
    var w := Without(store, key);
    forall p: nat | p < |w|
      ensures LastSet(ops, w[p].key) == Some(w[p]) && LastTouch(ops, w[p].key, cfg) >= 0
    {
      assert IsShifted(store, key, p);
    }
    forall p: nat, q: nat | p < q < |w|
      ensures LastTouch(ops, w[p].key, cfg) < LastTouch(ops, w[q].key, cfg)
    {
      assert IsShifted(store, key, p) && IsShifted(store, key, q);
    }
  }

  lemma Untouched(ops: seq<Op>, key: Key, cfg: Config)
    requires ops != [] && (Last(ops).key != key || !Touches(ops, cfg))
    ensures LastSet(ops, key) == LastSet(Init(ops), key)
    ensures LastTouch(ops, key, cfg) == LastTouch(Init(ops), key, cfg)
    ensures TouchedSince(Init(ops), key, cfg) <= TouchedSince(ops, key, cfg)
  {
  }

  /** Whatever explained an absence explains it still. */
  lemma StillExplained(ops: seq<Op>, key: Key, cfg: Config)
    requires ops != [] && Clocked(ops) && (Last(ops).key != key || !Touches(ops, cfg))
    requires Explained(Init(ops), key, cfg)
    ensures Explained(ops, key, cfg)
  {
    Untouched(ops, key, cfg);
    SubsetSize(TouchedSince(Init(ops), key, cfg), TouchedSince(ops, key, cfg));
  }

  function KeysOf(store: seq<Slot>): set<Key> {
    set slot | slot in store :: slot.key
  }

  lemma {:induction false} KeysOfSize(store: seq<Slot>)
    requires Distinct(store)
    ensures |KeysOf(store)| == |store|
  {
    if store != [] {
      KeysOfSize(store[1..]);
      assert KeysOf(store) == {store[0].key} + KeysOf(store[1..]);
    }
  }

  /** A slot is pushed out only by `maxsize` other keys touched since its own last touch. */
  lemma PushedOut(ops: seq<Op>, store: seq<Slot>, cfg: Config)
    requires Ordered(ops, store, cfg) && |store| > cfg.maxsize
    ensures |TouchedSince(ops, store[0].key, cfg)| >= cfg.maxsize
    ensures Explained(ops, store[0].key, cfg)
  {
    forall q | 1 <= q < |store| ensures store[q].key in TouchedSince(ops, store[0].key, cfg) {
      TouchedLater(ops, store[0].key, store[q].key, cfg);
    }
    KeysOfSize(store[1..]);
    SubsetSize(KeysOf(store[1..]), TouchedSince(ops, store[0].key, cfg));
  }

  /** A call that touches no key. */
  lemma QuietStep(ops: seq<Op>, cfg: Config)
    requires ops != [] && Clocked(ops) && Inv(Init(ops), cfg) && !Touches(ops, cfg)
    ensures Inv(ops, cfg)
  {
    hide Faithful, Ordered, LastSet, LastTouch, TouchedSince, Explained;
    var store, key := After(Init(ops), cfg), Last(ops).key;
    OrderedDistinct(Init(ops), store, cfg);
    SameFacts(ops, store, cfg);
    WithoutKeeps(ops, store, key, cfg);
    assert After(ops, cfg) == Without(store, key);
    forall k | !Holds(After(ops, cfg), k) ensures Explained(ops, k, cfg) {
      WithoutHolds(store, key, k);
      if Holds(store, k) {
        TooOld(ops, store, cfg);
      } else {
        StillExplained(ops, k, cfg);
      }
    }
    WithoutIs(store, key);
  }

  lemma OrderedDistinct(ops: seq<Op>, store: seq<Slot>, cfg: Config)
    requires Ordered(ops, store, cfg)
    ensures Distinct(store)
  {
    hide LastTouch;
  }

  lemma SameFacts(ops: seq<Op>, store: seq<Slot>, cfg: Config)
    requires ops != [] && !Touches(ops, cfg)
    requires Faithful(Init(ops), store) && Ordered(Init(ops), store, cfg)
    ensures Faithful(ops, store) && Ordered(ops, store, cfg)
  {
    forall p | 0 <= p < |store|
      ensures LastSet(ops, store[p].key) == LastSet(Init(ops), store[p].key)
      ensures LastTouch(ops, store[p].key, cfg) == LastTouch(Init(ops), store[p].key, cfg)
    {
      Untouched(ops, store[p].key, cfg);
    }
  }

  lemma TooOld(ops: seq<Op>, store: seq<Slot>, cfg: Config)
    requires ops != [] && !Touches(ops, cfg) && store == After(Init(ops), cfg)
    requires Faithful(ops, store) && Holds(store, Last(ops).key)
    ensures Explained(ops, Last(ops).key, cfg)
  {
    var p := IndexOf(store, Last(ops).key).value;
    assert LastSet(ops, store[p].key) == Some(store[p]);
  }

  /** The store of a call that touches its key, before anything is pushed out. */
  function Touched(store: seq<Slot>, slot: Slot): seq<Slot> {
    Without(store, slot.key) + [slot]
  }

  lemma TouchedKeeps(ops: seq<Op>, store: seq<Slot>, slot: Slot, cfg: Config)
    requires ops != [] && Touches(ops, cfg) && Last(ops).key == slot.key
    requires Faithful(Init(ops), store) && Ordered(Init(ops), store, cfg)
    requires LastSet(ops, slot.key) == Some(slot)
    ensures Faithful(ops, Touched(store, slot)) && Ordered(ops, Touched(store, slot), cfg)
  {
    hide LastSet, Without;
    OrderedDistinct(Init(ops), store, cfg);
    WithoutIs(store, slot.key);
    WithoutKeeps(Init(ops), store, slot.key, cfg);
    var w := Without(store, slot.key);
    forall p: nat | p < |w|
      ensures LastSet(ops, w[p].key) == LastSet(Init(ops), w[p].key)
      ensures LastTouch(ops, w[p].key, cfg) == LastTouch(Init(ops), w[p].key, cfg) < |Init(ops)|
    {
      assert IsShifted(store, slot.key, p);
      Untouched(ops, w[p].key, cfg);
      LastTouchBelow(Init(ops), w[p].key, cfg);
    }
  }

  /** A call that touches its key, leaving `slot` as the newest. */
  lemma TouchStep(ops: seq<Op>, slot: Slot, cfg: Config)
    requires ops != [] && Clocked(ops) && Inv(Init(ops), cfg)
    requires Touches(ops, cfg) && Last(ops).key == slot.key && LastSet(ops, slot.key) == Some(slot)
    requires After(ops, cfg) == Newest(Touched(After(Init(ops), cfg), slot), cfg.maxsize)
    ensures Inv(ops, cfg)
  {
    hide Faithful, Ordered, LastSet, LastTouch, TouchedSince, Explained, Without;
    var store := After(Init(ops), cfg);
    var all, kept := Touched(store, slot), After(ops, cfg);
    OrderedDistinct(Init(ops), store, cfg);
    WithoutIs(store, slot.key);
    TouchedKeeps(ops, store, slot, cfg);
    assert |all| <= cfg.maxsize + 1;
    NewestKeeps(ops, all, cfg);
    forall k | !Holds(kept, k) ensures Explained(ops, k, cfg) {
      if Holds(all, k) {
        DroppedIsFirst(all, cfg.maxsize, k);
        PushedOut(ops, all, cfg);
      } else {
        InTouched(store, slot, k);
        StillExplained(ops, k, cfg);
      }
    }
  }

  lemma InTouched(store: seq<Slot>, slot: Slot, k: Key)
    requires Distinct(store)
    ensures Holds(store, k) || k == slot.key ==> Holds(Touched(store, slot), k)
  {
    hide Without;
    var w, all := Without(store, slot.key), Touched(store, slot);
    assert all[|w|] == slot;
    WithoutHolds(store, slot.key, k);
    if k != slot.key && Holds(store, k) {
      assert all[IndexOf(w, k).value].key == k;
    }
  }

  lemma KeptHolds(all: seq<Slot>, maxsize: nat, p: nat)
    requires p < |all| <= maxsize + 1 && (p > 0 || |all| <= maxsize)
    ensures Holds(Newest(all, maxsize), all[p].key)
  {
    var kept := Newest(all, maxsize);
    assert kept[p - (|all| - |kept|)] == all[p];
  }

  lemma DroppedIsFirst(all: seq<Slot>, maxsize: nat, k: Key)
    requires |all| <= maxsize + 1 && Holds(all, k)
    ensures Holds(Newest(all, maxsize), k) || (|all| > maxsize && all[0].key == k)
  {
    var p := IndexOf(all, k).value;
    if p > 0 || |all| <= maxsize {
      KeptHolds(all, maxsize, p);
    }
  }

  lemma NewestKeeps(ops: seq<Op>, store: seq<Slot>, cfg: Config)
    requires Faithful(ops, store) && Ordered(ops, store, cfg)
    ensures Faithful(ops, Newest(store, cfg.maxsize)) && Ordered(ops, Newest(store, cfg.maxsize), cfg)
  {
    hide LastSet, LastTouch;
  }

  /** What holds after every history of calls. */
  lemma {:induction false} HistoryKeepsInv(ops: seq<Op>, cfg: Config)
    requires Clocked(ops)
    ensures Inv(ops, cfg)
  {
    if ops != [] {
      HistoryKeepsInv(Init(ops), cfg);
      var store, op := After(Init(ops), cfg), Last(ops);
      if !Touches(ops, cfg) {
        QuietStep(ops, cfg);
      } else {
        match op
        case Set(key, value, now) => TouchStep(ops, Slot(key, now, value), cfg);
        case Get(key, now) =>
          HitStep(ops, cfg);
      }
    }
  }

  lemma HitStep(ops: seq<Op>, cfg: Config)
    requires ops != [] && Clocked(ops) && Inv(Init(ops), cfg) && Touches(ops, cfg) && Last(ops).Get?
    ensures Inv(ops, cfg)
  {
    hide LastTouch, TouchedSince, Explained, Without;
    var store, key := After(Init(ops), cfg), Last(ops).key;
    var p := IndexOf(store, key).value;
    assert LastSet(Init(ops), store[p].key) == Some(store[p]);
    OrderedDistinct(Init(ops), store, cfg);
    WithoutIs(store, key);
    assert After(ops, cfg) == Newest(Touched(store, store[p]), cfg.maxsize);
    TouchStep(ops, store[p], cfg);
  }

  /** What a lookup after any history returns: only what the key's latest `set` stored,
      within its time to live; and it misses such a value only after `maxsize` other
      keys were touched since this key last was. */
  lemma GetMeaning(ops: seq<Op>, key: Key, now: Time, cfg: Config)
    requires Clocked(ops + [Get(key, now)])
    ensures var answer, latest := Answer(After(ops, cfg), key, now, cfg), LastSet(ops, key);
            && (answer.Some? ==>
                  latest.Some? && latest.value.value == answer.value && Fresh(latest.value, now, cfg))
            && (answer.None? && latest.Some? && Fresh(latest.value, now, cfg) ==>
                  |TouchedSince(ops, key, cfg)| >= cfg.maxsize)
  {
    hide LastSet, TouchedSince, LastTouch;
    var all := ops + [Get(key, now)];
    assert Clocked(ops) by {
      assert forall i :: 0 <= i < |ops| ==> all[i] == ops[i];
    }
    assert ops != [] ==> all[|ops| - 1].now <= all[|ops|].now;
    HistoryKeepsInv(ops, cfg);
    var store := After(ops, cfg);
    if Holds(store, key) {
      assert LastSet(ops, key) == Some(store[IndexOf(store, key).value]);
    } else {
      assert Explained(ops, key, cfg);
    }
  }

  // ---- When no lookup meets an entry past its time, the cache is exactly LRU ----------------

  /** Every lookup in the history finds its key absent or fresh. */
  ghost predicate NoneExpired(ops: seq<Op>, cfg: Config) {
    ops != [] ==>
      && NoneExpired(Init(ops), cfg)
      && (Last(ops).Get? && !Touches(ops, cfg) ==> !Holds(After(Init(ops), cfg), Last(ops).key))
  }

  ghost predicate Behind(store: seq<Slot>, p: int, key: Key) {
    exists q :: 0 <= p < q < |store| && store[q].key == key
  }

  /** Whatever was touched since a slot was is still behind it. */
  ghost predicate Backed(ops: seq<Op>, store: seq<Slot>, cfg: Config) {
    forall p, key :: 0 <= p < |store| && key in TouchedSince(ops, store[p].key, cfg) ==> Behind(store, p, key)
  }

  lemma TouchedBacked(ops: seq<Op>, store: seq<Slot>, slot: Slot, cfg: Config)
    requires ops != [] && Touches(ops, cfg) && Last(ops).key == slot.key
    requires Distinct(store) && Backed(Init(ops), store, cfg)
    ensures Backed(ops, Touched(store, slot), cfg)
  {
    hide Without;
    var w, all := Without(store, slot.key), Touched(store, slot);
    WithoutIs(store, slot.key);
    forall p: nat, key | p < |all| && key in TouchedSince(ops, all[p].key, cfg)
      ensures Behind(all, p, key)
    {
      assert p < |w|;
      assert IsShifted(store, slot.key, p);
      if key == slot.key {
        assert all[|w|].key == key;
      } else {
        assert key in TouchedSince(Init(ops), all[p].key, cfg);
        var q :| 0 <= Shift(store, slot.key, p) < q < |store| && store[q].key == key;
        StillBehind(store, slot.key, p, q);
        var q' :| p < q' < |w| && w[q'] == store[q];
        assert all[q'].key == key;
      }
    }
  }

  lemma StillBehind(store: seq<Slot>, out: Key, p: nat, q: nat)
    requires Distinct(store) && p < |Without(store, out)|
    requires Shift(store, out, p) < q < |store| && store[q].key != out
    ensures exists q' :: p < q' < |Without(store, out)| && Without(store, out)[q'] == store[q]
  {
    var w, at := Without(store, out), IndexOf(store, out);
    var q' := if at.Some? && q > at.value then q - 1 else q;
    assert p < q' < |w| && w[q'] == store[q];
  }

  lemma NewestBacked(ops: seq<Op>, store: seq<Slot>, cfg: Config)
    requires Backed(ops, store, cfg)
    ensures Backed(ops, Newest(store, cfg.maxsize), cfg)
  {
    hide TouchedSince;
    var kept := Newest(store, cfg.maxsize);
    var d := |store| - |kept|;
    forall p, key | 0 <= p < |kept| && key in TouchedSince(ops, kept[p].key, cfg)
      ensures Behind(kept, p, key)
    {
      assert kept[p] == store[p + d];
      var q :| 0 <= p + d < q < |store| && store[q].key == key;
      assert kept[q - d] == store[q];
    }
  }

  lemma {:induction false} HistoryBacked(ops: seq<Op>, cfg: Config)
    requires Clocked(ops) && NoneExpired(ops, cfg)
    ensures Backed(ops, After(ops, cfg), cfg)
    ensures forall key :: LastTouch(ops, key, cfg) >= 0 && !Holds(After(ops, cfg), key) ==>
      |TouchedSince(ops, key, cfg)| >= cfg.maxsize
  {
    if ops != [] {
      hide LastSet, Backed, Faithful, Touches, Explained;
      HistoryBacked(Init(ops), cfg);
      HistoryKeepsInv(Init(ops), cfg);
      var store, key := After(Init(ops), cfg), Last(ops).key;
      OrderedDistinct(Init(ops), store, cfg);
      if Touches(ops, cfg) {
        BackedStep(ops, cfg);
        forall k | LastTouch(ops, k, cfg) >= 0 && !Holds(After(ops, cfg), k)
          ensures |TouchedSince(ops, k, cfg)| >= cfg.maxsize
        {
          GoneStep(ops, k, cfg);
        }
      } else {
        QuietStore(ops, cfg);
        forall k ensures LastTouch(ops, k, cfg) == LastTouch(Init(ops), k, cfg)
                 ensures TouchedSince(ops, k, cfg) == TouchedSince(Init(ops), k, cfg) {
        }
        assert Backed(ops, store, cfg) by { SameBacked(ops, store, cfg); }
      }
    }
  }

  lemma SameBacked(ops: seq<Op>, store: seq<Slot>, cfg: Config)
    requires ops != [] && !Touches(ops, cfg) && Backed(Init(ops), store, cfg)
    ensures Backed(ops, store, cfg)
  {
  }

  lemma QuietStore(ops: seq<Op>, cfg: Config)
    requires ops != [] && NoneExpired(ops, cfg) && !Touches(ops, cfg)
    ensures After(ops, cfg) == After(Init(ops), cfg)
  {
  }

  /** The slot a touching call leaves newest. */
  function NewSlot(ops: seq<Op>, cfg: Config): (slot: Slot)
    requires ops != [] && Touches(ops, cfg)
    ensures slot.key == Last(ops).key
  {
    var store, op := After(Init(ops), cfg), Last(ops);
    match op
    case Set(key, value, now) => Slot(key, now, value)
    case Get(key, now) => store[IndexOf(store, key).value]
  }

  lemma NewSlotIs(ops: seq<Op>, cfg: Config)
    requires ops != [] && Touches(ops, cfg) && Inv(Init(ops), cfg)
    ensures After(ops, cfg) == Newest(Touched(After(Init(ops), cfg), NewSlot(ops, cfg)), cfg.maxsize)
    ensures |Touched(After(Init(ops), cfg), NewSlot(ops, cfg))| <= cfg.maxsize + 1
    ensures Distinct(After(Init(ops), cfg))
    ensures LastSet(ops, Last(ops).key) == Some(NewSlot(ops, cfg))
  {
    hide LastTouch, TouchedSince, Explained, Without;
    var store := After(Init(ops), cfg);
    OrderedDistinct(Init(ops), store, cfg);
    WithoutIs(store, Last(ops).key);
    if Last(ops).Get? {
      var p := IndexOf(store, Last(ops).key).value;
      assert LastSet(Init(ops), store[p].key) == Some(store[p]);
    }
  }

  lemma BackedStep(ops: seq<Op>, cfg: Config)
    requires ops != [] && Touches(ops, cfg) && Inv(Init(ops), cfg)
    requires Backed(Init(ops), After(Init(ops), cfg), cfg)
    ensures Backed(ops, After(ops, cfg), cfg)
  {
    hide Touches, Inv, Backed, Touched;
    var store, slot := After(Init(ops), cfg), NewSlot(ops, cfg);
    NewSlotIs(ops, cfg);
    TouchedBacked(ops, store, slot, cfg);
    NewestBacked(ops, Touched(store, slot), cfg);
  }

  lemma GoneStep(ops: seq<Op>, key: Key, cfg: Config)
    requires ops != [] && Clocked(ops) && Touches(ops, cfg) && Inv(Init(ops), cfg)
    requires LastTouch(ops, key, cfg) >= 0 && !Holds(After(ops, cfg), key)
    requires !Holds(After(Init(ops), cfg), key) && LastTouch(Init(ops), key, cfg) >= 0 ==>
      |TouchedSince(Init(ops), key, cfg)| >= cfg.maxsize
    ensures |TouchedSince(ops, key, cfg)| >= cfg.maxsize
  {
    hide Touches, Touched, Without, LastSet;
    var store, slot := After(Init(ops), cfg), NewSlot(ops, cfg);
    var all := Touched(store, slot);
    NewSlotIs(ops, cfg);
    InTouched(store, slot, key);
    if Holds(all, key) {
      TouchedKeeps(ops, store, slot, cfg);
      DroppedIsFirst(all, cfg.maxsize, key);
      PushedOut(ops, all, cfg);
    } else {
      Untouched(ops, key, cfg);
      SubsetSize(TouchedSince(Init(ops), key, cfg), TouchedSince(ops, key, cfg));
    }
  }

  lemma {:induction false} SetIsTouched(ops: seq<Op>, key: Key, cfg: Config)
    requires LastSet(ops, key).Some?
    ensures LastTouch(ops, key, cfg) >= 0
  {
    if Touches(ops, cfg) && Last(ops).key == key {
    } else {
      SetIsTouched(Init(ops), key, cfg);
    }
  }

  /** Then a lookup finds its key exactly when the key was set, is fresh, and fewer than
      `maxsize` other keys were touched since it last was. */
  lemma ExactLru(ops: seq<Op>, key: Key, now: Time, cfg: Config)
    requires Clocked(ops + [Get(key, now)]) && NoneExpired(ops, cfg)
    ensures var latest := LastSet(ops, key);
            Answer(After(ops, cfg), key, now, cfg).Some? <==>
              latest.Some? && Fresh(latest.value, now, cfg) && |TouchedSince(ops, key, cfg)| < cfg.maxsize
  {
    hide LastSet, TouchedSince, LastTouch, After;
    var all := ops + [Get(key, now)];
    assert Clocked(ops) by {
      assert forall i :: 0 <= i < |ops| ==> all[i] == ops[i];
    }
    HistoryKeepsInv(ops, cfg);
    HistoryBacked(ops, cfg);
    var store := After(ops, cfg);
    if Holds(store, key) {
      var p := IndexOf(store, key).value;
      assert LastSet(ops, key) == Some(store[p]);
      BackedSize(ops, store, p, cfg);
    } else if LastSet(ops, key).Some? {
      SetIsTouched(ops, key, cfg);
    }
  }

  lemma BackedSize(ops: seq<Op>, store: seq<Slot>, p: nat, cfg: Config)
    requires Backed(ops, store, cfg) && Ordered(ops, store, cfg) && p < |store| <= cfg.maxsize
    ensures |TouchedSince(ops, store[p].key, cfg)| < cfg.maxsize
  {
    hide TouchedSince;
    OrderedDistinct(ops, store, cfg);
    var rest := store[p + 1..];
    forall key | key in TouchedSince(ops, store[p].key, cfg) ensures key in KeysOf(rest) {
      var q :| 0 <= p < q < |store| && store[q].key == key;
      assert rest[q - p - 1] == store[q];
    }
    KeysOfSize(rest);
    SubsetSize(TouchedSince(ops, store[p].key, cfg), KeysOf(rest));
  }
}
