/** The response cache against a reference that looks at the calls alone: which keys are
    there, and what every lookup answers, for every history. */
module LruReference {
  import opened Text
  import opened Sets
  import opened LruCache

  /** Set within its time to live. */
  predicate Young(ops: seq<Op>, key: Key, now: Time, cfg: Config) {
    LastSet(ops, key).Some? && now - LastSet(ops, key).value.at <= cfg.ttl
  }

  /** The key has been set, no lookup has found it too old since, and at no later moment
      were `maxsize` other keys more recent. */
  predicate Present(ops: seq<Op>, key: Key, cfg: Config)
    decreases |ops|, 1
  {
    ops != [] &&
    if Last(ops).key != key then Present(Init(ops), key, cfg) && |Recent(ops, key, cfg)| < cfg.maxsize
    else if Last(ops).Set? then cfg.maxsize > 0
    else Present(Init(ops), key, cfg) && Young(Init(ops), key, Last(ops).now, cfg)
  }

  /** The other keys used since the key was, but for those found too old since. */
  function Recent(ops: seq<Op>, key: Key, cfg: Config): set<Key>
    decreases |ops|, 0
  {
    if ops == [] then {}
    else
      var before, op := Recent(Init(ops), key, cfg), Last(ops);
      if op.Set? || (Young(Init(ops), op.key, op.now, cfg) && Present(Init(ops), op.key, cfg)) then
        if op.key == key then {} else before + {op.key}
      else if Young(Init(ops), op.key, op.now, cfg) then before
      else before - {op.key}
  }

  /** The keys behind a position are those used since. */
  ghost predicate BehindIsRecent(ops: seq<Op>, store: seq<Slot>, cfg: Config) {
    forall p :: 0 <= p < |store| ==> KeysOf(store[p + 1..]) == Recent(ops, store[p].key, cfg)
  }

  ghost predicate Matches(ops: seq<Op>, cfg: Config) {
    var store := After(ops, cfg);
    BehindIsRecent(ops, store, cfg) && forall key :: Holds(store, key) <==> Present(ops, key, cfg)
  }

  lemma HoldsIff(store: seq<Slot>, key: Key)
    ensures Holds(store, key) <==> key in KeysOf(store)
  {
    if Holds(store, key) {
      assert store[IndexOf(store, key).value] in store;
    }
  }

  lemma KeyAt(store: seq<Slot>, lo: nat, q: nat)
    requires lo <= q < |store|
    ensures store[q].key in KeysOf(store[lo..])
  {
    assert store[lo..][q - lo] == store[q];
    assert store[q] in store[lo..];
  }

  lemma WhereKey(store: seq<Slot>, lo: nat, k: Key) returns (q: nat)
    requires lo <= |store| && k in KeysOf(store[lo..])
    ensures lo <= q < |store| && store[q].key == k
  {
    var i :| 0 <= i < |store[lo..]| && store[lo..][i].key == k;
    q := lo + i;
  }

  lemma StaysBehind(store: seq<Slot>, key: Key, p: nat, k: Key)
    requires Distinct(store) && p < |Without(store, key)| && Shift(store, key, p) < |store|
    requires k in KeysOf(store[Shift(store, key, p) + 1..]) && k != key
    ensures k in KeysOf(Without(store, key)[p + 1..])
  {
    hide IndexOf, KeysOf, Distinct;
    var at := WhereKey(store, Shift(store, key, p) + 1, k);
    var i := IndexOf(store, key);
    var to := if i.Some? && at > i.value then at - 1 else at;
    assert Without(store, key)[to] == store[at];
    KeyAt(Without(store, key), p + 1, to);
  }

  lemma WasBehind(store: seq<Slot>, key: Key, p: nat, k: Key)
    requires Distinct(store) && p < |Without(store, key)| && Shift(store, key, p) < |store|
    requires k in KeysOf(Without(store, key)[p + 1..])
    ensures k in KeysOf(store[Shift(store, key, p) + 1..]) && k != key
  {
    hide IndexOf, KeysOf, Without;
    var q := WhereKey(Without(store, key), p + 1, k);
    WithoutIs(store, key);
    assert IsShifted(store, key, q);
    KeyAt(store, Shift(store, key, p) + 1, Shift(store, key, q));
  }

  /** What is behind a position once a key has been taken out. */
  lemma BehindWithout(store: seq<Slot>, key: Key, p: nat)
    requires Distinct(store) && p < |Without(store, key)|
    ensures IsShifted(store, key, p)
    ensures KeysOf(Without(store, key)[p + 1..]) == KeysOf(store[Shift(store, key, p) + 1..]) - {key}
  {
    hide IndexOf, KeysOf, Without, Shift;
    WithoutIs(store, key);
    assert IsShifted(store, key, p);
    var w, b := KeysOf(Without(store, key)[p + 1..]), KeysOf(store[Shift(store, key, p) + 1..]);
    forall k: Key ensures k in w <==> k in b - {key} {
      if k in w {
        WasBehind(store, key, p, k);
      }
      if k in b && k != key {
        StaysBehind(store, key, p, k);
      }
    }
  }

  lemma BehindTouched(store: seq<Slot>, slot: Slot, p: nat)
    requires Distinct(store) && p < |Touched(store, slot)|
    ensures var all, n := Touched(store, slot), |Without(store, slot.key)|;
            if p == n then all[p] == slot && KeysOf(all[p + 1..]) == {}
            else
              && IsShifted(store, slot.key, p) && all[p] == store[Shift(store, slot.key, p)]
              && KeysOf(all[p + 1..]) == KeysOf(store[Shift(store, slot.key, p) + 1..]) + {slot.key}
  {
    hide IndexOf;
    var w, all := Without(store, slot.key), Touched(store, slot);
    if p < |w| {
      BehindWithout(store, slot.key, p);
      assert all[p + 1..] == w[p + 1..] + [slot];
      KeysOfMore(w[p + 1..], slot);
    }
  }

  lemma KeysOfMore(store: seq<Slot>, slot: Slot)
    ensures KeysOf(store + [slot]) == KeysOf(store) + {slot.key}
  {
    forall k ensures k in KeysOf(store + [slot]) <==> k in KeysOf(store) || k == slot.key {
      if k in KeysOf(store) {
        var s :| s in store && s.key == k;
        assert s in store + [slot];
      }
      assert slot in store + [slot];
    }
  }

  lemma TailDistinct(store: seq<Slot>, p: nat)
    requires Distinct(store) && p < |store|
    ensures |KeysOf(store[p + 1..])| == |store| - p - 1
  {
    KeysOfSize(store[p + 1..]);
  }

  /** What a history of calls guarantees of the store besides. */
  lemma StoreFacts(ops: seq<Op>, cfg: Config)
    requires Clocked(ops)
    ensures Distinct(After(ops, cfg)) && |After(ops, cfg)| <= cfg.maxsize && Faithful(ops, After(ops, cfg))
  {
    hide Ordered, Faithful, Explained;
    HistoryKeepsInv(ops, cfg);
    OrderedDistinct(ops, After(ops, cfg), cfg);
  }

  lemma FreshIsYoung(ops: seq<Op>, key: Key, now: Time, cfg: Config)
    requires Faithful(ops, After(ops, cfg)) && Holds(After(ops, cfg), key)
    ensures var p := IndexOf(After(ops, cfg), key).value;
            LastSet(ops, key) == Some(After(ops, cfg)[p])
            && (Fresh(After(ops, cfg)[p], now, cfg) <==> Young(ops, key, now, cfg))
  {
    var store := After(ops, cfg);
    assert LastSet(ops, store[IndexOf(store, key).value].key).Some?;
  }

  /** A call that uses its key, as a `set` or a lookup that finds it young. */
  lemma UseStep(ops: seq<Op>, slot: Slot, cfg: Config)
    requires ops != [] && Matches(Init(ops), cfg) && Last(ops).key == slot.key
    requires Last(ops).Set? || (Young(Init(ops), slot.key, Last(ops).now, cfg) && Present(Init(ops), slot.key, cfg))
    requires Distinct(After(Init(ops), cfg)) && |After(Init(ops), cfg)| <= cfg.maxsize
    requires After(ops, cfg) == Newest(Touched(After(Init(ops), cfg), slot), cfg.maxsize)
    ensures Matches(ops, cfg)
  {
    hide IndexOf, LastSet, Young, After, KeysOf, Holds, Distinct, Present, Recent, Touched, Newest;
    var store, kept := After(Init(ops), cfg), After(ops, cfg);
    var all := Touched(store, slot);
    var d := NewestIs(all, cfg.maxsize);
    forall p: nat | p < |all| ensures KeysOf(all[p + 1..]) == Recent(ops, all[p].key, cfg) {
      UseBehind(ops, slot, p, cfg);
    }
    forall p: nat | p < |kept| ensures KeysOf(kept[p + 1..]) == Recent(ops, kept[p].key, cfg) {
      assert kept[p + 1..] == all[p + d + 1..] && kept[p] == all[p + d];
    }
    forall key ensures Holds(kept, key) <==> Present(ops, key, cfg) {
      UsePresent(ops, slot, key, cfg);
    }
  }

  lemma UsePresent(ops: seq<Op>, slot: Slot, key: Key, cfg: Config)
    requires ops != [] && Last(ops).key == slot.key
    requires Last(ops).Set? || (Young(Init(ops), slot.key, Last(ops).now, cfg) && Present(Init(ops), slot.key, cfg))
    requires Distinct(After(Init(ops), cfg)) && |After(Init(ops), cfg)| <= cfg.maxsize
    requires forall k :: Holds(After(Init(ops), cfg), k) <==> Present(Init(ops), k, cfg)
    requires var all := Touched(After(Init(ops), cfg), slot);
             forall p :: 0 <= p < |all| ==> KeysOf(all[p + 1..]) == Recent(ops, all[p].key, cfg)
    ensures Holds(Newest(Touched(After(Init(ops), cfg), slot), cfg.maxsize), key) <==> Present(ops, key, cfg)
  {
    hide IndexOf, LastSet, Young, Without, After, KeysOf, Holds, Distinct, Recent, Touched, Newest;
    var store, all := After(Init(ops), cfg), Touched(After(Init(ops), cfg), slot);
    AllDistinct(store, slot);
    InTouchedIff(store, slot, key);
    KeptIff(all, cfg.maxsize, key);
    HoldsSome(store, key);
    HoldsSome(all, key);
    if Holds(all, key) {
      TailDistinct(all, IndexOf(all, key).value);
    }
    if key == slot.key {
      NewestIsLast(store, slot);
    }
  }

  lemma NewestIs(all: seq<Slot>, maxsize: nat) returns (d: nat)
    ensures d <= |all| && Newest(all, maxsize) == all[d..]
  {
    d := if |all| > maxsize then |all| - maxsize else 0;
  }

  lemma UseBehind(ops: seq<Op>, slot: Slot, p: nat, cfg: Config)
    requires ops != [] && BehindIsRecent(Init(ops), After(Init(ops), cfg), cfg) && Last(ops).key == slot.key
    requires Last(ops).Set? || (Young(Init(ops), slot.key, Last(ops).now, cfg) && Present(Init(ops), slot.key, cfg))
    requires Distinct(After(Init(ops), cfg)) && p < |Touched(After(Init(ops), cfg), slot)|
    ensures KeysOf(Touched(After(Init(ops), cfg), slot)[p + 1..])
         == Recent(ops, Touched(After(Init(ops), cfg), slot)[p].key, cfg)
  {
    hide IndexOf, LastSet, Young, After, KeysOf, Present;
    var store := After(Init(ops), cfg);
    WithoutIs(store, slot.key);
    BehindTouched(store, slot, p);
  }

  lemma NewestIsLast(store: seq<Slot>, slot: Slot)
    requires Distinct(store)
    ensures var all := Touched(store, slot); all != [] && IndexOf(all, slot.key) == Some(|all| - 1)
  {
    hide IndexOf;
    var all := Touched(store, slot);
    AllDistinct(store, slot);
    if IndexOf(all, slot.key) != Some(|all| - 1) {
      OneAt(all, slot.key, |all| - 1);
    }
  }

  lemma HoldsSome(store: seq<Slot>, key: Key)
    ensures Holds(store, key) <==> IndexOf(store, key).Some?
    ensures Holds(store, key) ==> |store| > 0
    ensures Holds(store, key) ==> IndexOf(store, key).value < |store| && store[IndexOf(store, key).value].key == key
  {
  }

  lemma AllDistinct(store: seq<Slot>, slot: Slot)
    requires Distinct(store)
    ensures Distinct(Touched(store, slot))
  {
    hide IndexOf;
    WithoutIs(store, slot.key);
    var w := Without(store, slot.key);
    forall p: nat, q: nat | p < q < |w| + 1 ensures (w + [slot])[p].key != (w + [slot])[q].key {
      assert IsShifted(store, slot.key, p);
      if q < |w| {
        assert IsShifted(store, slot.key, q);
      }
    }
  }

  lemma InTouchedIff(store: seq<Slot>, slot: Slot, key: Key)
    requires Distinct(store)
    ensures Holds(Touched(store, slot), key) <==> Holds(store, key) || key == slot.key
  {
    hide Without;
    WithoutHolds(store, slot.key, key);
    HoldsIff(Touched(store, slot), key);
    HoldsIff(Without(store, slot.key), key);
    KeysOfMore(Without(store, slot.key), slot);
  }

  /** Kept are the keys with fewer than `maxsize` behind them. */
  lemma KeptIff(all: seq<Slot>, maxsize: nat, key: Key)
    requires Distinct(all)
    ensures Holds(Newest(all, maxsize), key) <==>
      Holds(all, key) && |all| - IndexOf(all, key).value - 1 < maxsize
  {
    hide IndexOf;
    var kept := Newest(all, maxsize);
    var d := |all| - |kept|;
    if Holds(kept, key) {
      var p := IndexOf(kept, key).value;
      assert all[p + d].key == key;
      if IndexOf(all, key) != Some(p + d) {
        OneAt(all, key, p + d);
      }
    }
    if Holds(all, key) && |all| - IndexOf(all, key).value - 1 < maxsize {
      var p := IndexOf(all, key).value;
      assert kept[p - d].key == key;
    }
  }

  /** A lookup that finds its key too old takes it out. */
  lemma OldStep(ops: seq<Op>, cfg: Config)
    requires ops != [] && Matches(Init(ops), cfg) && Last(ops).Get?
    requires Holds(After(Init(ops), cfg), Last(ops).key) && !Young(Init(ops), Last(ops).key, Last(ops).now, cfg)
    requires Distinct(After(Init(ops), cfg)) && |After(Init(ops), cfg)| <= cfg.maxsize
    requires After(ops, cfg) == Without(After(Init(ops), cfg), Last(ops).key)
    ensures Matches(ops, cfg)
  {
    hide IndexOf, LastSet, Young, Without, After;
    var store, key, w := After(Init(ops), cfg), Last(ops).key, After(ops, cfg);
    WithoutIs(store, key);
    forall p: nat | p < |w| ensures KeysOf(w[p + 1..]) == Recent(ops, w[p].key, cfg) {
      BehindWithout(store, key, p);
    }
    forall k ensures Holds(w, k) <==> Present(ops, k, cfg) {
      WithoutHolds(store, key, k);
      if Holds(store, k) && k != key {
        FewBehind(ops, store, k, cfg);
      }
    }
  }

  lemma FewBehind(ops: seq<Op>, store: seq<Slot>, k: Key, cfg: Config)
    requires ops != [] && BehindIsRecent(Init(ops), store, cfg) && Distinct(store) && |store| <= cfg.maxsize
    requires Holds(store, k) && Recent(ops, k, cfg) <= Recent(Init(ops), k, cfg)
    ensures |Recent(ops, k, cfg)| < cfg.maxsize
  {
    HoldsSome(store, k);
    TailDistinct(store, IndexOf(store, k).value);
    SubsetSize(Recent(ops, k, cfg), Recent(Init(ops), k, cfg));
  }

  /** A lookup of a key that is not there. */
  lemma MissStep(ops: seq<Op>, cfg: Config)
    requires ops != [] && Matches(Init(ops), cfg) && Last(ops).Get?
    requires !Holds(After(Init(ops), cfg), Last(ops).key) && After(ops, cfg) == After(Init(ops), cfg)
    requires Distinct(After(Init(ops), cfg)) && |After(Init(ops), cfg)| <= cfg.maxsize
    ensures Matches(ops, cfg)
  {
    hide IndexOf, LastSet, Young, After;
    var store, key := After(ops, cfg), Last(ops).key;
    assert !Present(Init(ops), key, cfg);
    forall p: nat | p < |store| ensures KeysOf(store[p + 1..]) == Recent(ops, store[p].key, cfg) {
      HoldsIff(store, key);
      HoldsIff(store, store[p].key);
      assert store[p] in store;
      assert KeysOf(store[p + 1..]) <= KeysOf(store) by {
        forall s | s in store[p + 1..] ensures s in store {
        }
      }
    }
    forall k ensures Holds(store, k) <==> Present(ops, k, cfg) {
      if Holds(store, k) {
        FewBehind(ops, store, k, cfg);
      }
    }
  }

  lemma {:induction false} StoreMatches(ops: seq<Op>, cfg: Config)
    requires Clocked(ops)
    ensures Matches(ops, cfg)
  {
    if ops != [] {
      hide Matches, Distinct, Faithful, Present, Recent;
      StoreMatches(Init(ops), cfg);
      StoreFacts(Init(ops), cfg);
      var store, op := After(Init(ops), cfg), Last(ops);
      PresentIff(Init(ops), op.key, cfg);
      match op
      case Set(key, value, now) => UseStep(ops, Slot(key, now, value), cfg);
      case Get(key, now) =>
        if Holds(store, key) {
          FreshIsYoung(Init(ops), key, now, cfg);
          if Young(Init(ops), key, now, cfg) {
            HitKeepsSize(store, key, cfg);
            UseStep(ops, store[IndexOf(store, key).value], cfg);
          } else {
            assert Without(store, key) + [] == Without(store, key);
            OldStep(ops, cfg);
          }
        } else {
          MissStep(ops, cfg);
        }
    } else {
      NothingMatches(cfg);
    }
  }

  lemma PresentIff(ops: seq<Op>, key: Key, cfg: Config)
    requires Matches(ops, cfg)
    ensures Holds(After(ops, cfg), key) <==> Present(ops, key, cfg)
  {
  }

  lemma NothingMatches(cfg: Config)
    ensures Matches([], cfg)
  {
  }

  lemma HitKeepsSize(store: seq<Slot>, key: Key, cfg: Config)
    requires Distinct(store) && |store| <= cfg.maxsize && Holds(store, key)
    ensures var slot := store[IndexOf(store, key).value];
            Newest(Touched(store, slot), cfg.maxsize) == Without(store, key) + [slot]
  {
    hide Without;
    WithoutIs(store, key);
  }

  /** What every lookup answers, after every history: the value the key was last set to, if
      the key is present by the calls alone and that value is within its time; else nothing. */
  lemma GetExactly(ops: seq<Op>, key: Key, now: Time, cfg: Config)
    requires Clocked(ops)
    ensures Answer(After(ops, cfg), key, now, cfg) ==
      if Present(ops, key, cfg) && Young(ops, key, now, cfg) then Some(LastSet(ops, key).value.value) else None
  {
    hide Distinct, Present, Young, LastSet, Recent, BehindIsRecent, Faithful;
    StoreMatches(ops, cfg);
    StoreFacts(ops, cfg);
    if Holds(After(ops, cfg), key) {
      FreshIsYoung(ops, key, now, cfg);
    }
  }
}
