/**
 * One cell ("tower") of the area-of-interest grid.
 *
 * The Go tower keeps `map[int64]int64` values whose value always equals their
 * key, i.e. sets of ids; they are modelled as `set<int>`. The class `Tower`
 * is the mutable tower; its abstract value is a `TowerState`, and the pure
 * transition functions below (`Added`, `Removed`, `WatcherAdded`,
 * `WatcherRemoved`) are the specifications its methods are proved against.
 */
module Towers {

  /** An entity or a watcher: an id and a type; type 0 is the "untyped" sentinel. */
  datatype Object = Object(id: int, objType: int)

  /** The abstract value of a tower. */
  datatype TowerState = TowerState(
    ids: set<int>,                   // every object id present in the tower
    typeMap: map<int, set<int>>,     // object type -> ids of that type
    watchers: map<int, set<int>>,    // watcher type -> watcher ids
    size: int)                       // counter of successful adds minus removes

  const EmptyTower := TowerState({}, map[], map[], 0)

  /** Reading a bucket of a Go map of maps: a missing type reads as the empty (nil) map. */
  function Bucket(m: map<int, set<int>>, t: int): set<int> {
    if t in m then m[t] else {}
  }

  /**
   * Whether `Add` reports success. Go compares `typeMap[t][id] == id`; a missing
   * id reads as 0, so the comparison also holds whenever the id itself is 0.
   */
  predicate Accepts(s: TowerState, obj: Object) {
    obj.objType != 0 && obj.id != 0 && obj.id !in Bucket(s.typeMap, obj.objType)
  }

  /** The state after `Add`: a non-zero type always gets a bucket, even when the add is rejected. */
  function Added(s: TowerState, obj: Object): TowerState {
    if obj.objType == 0 then s
    else
      var b := Bucket(s.typeMap, obj.objType);
      if obj.id == 0 || obj.id in b then s.(typeMap := s.typeMap[obj.objType := b])
      else TowerState(s.ids + {obj.id}, s.typeMap[obj.objType := b + {obj.id}], s.watchers, s.size + 1)
  }

  /** The state after `Remove`: no check that the object was there, no bucket is ever deleted. */
  function Removed(s: TowerState, obj: Object): TowerState {
    var tm := if obj.objType != 0 && obj.objType in s.typeMap
              then s.typeMap[obj.objType := s.typeMap[obj.objType] - {obj.id}]
              else s.typeMap;
    TowerState(s.ids - {obj.id}, tm, s.watchers, s.size - 1)
  }

  /** The state after `AddWatcher`; type 0 is ignored, id 0 is not. */
  function WatcherAdded(s: TowerState, w: Object): TowerState {
    if w.objType == 0 then s
    else s.(watchers := s.watchers[w.objType := Bucket(s.watchers, w.objType) + {w.id}])
  }

  /** The state after `RemoveWatcher`; an absent bucket is not created. */
  function WatcherRemoved(s: TowerState, w: Object): TowerState {
    if w.objType != 0 && w.objType in s.watchers
    then s.(watchers := s.watchers[w.objType := s.watchers[w.objType] - {w.id}])
    else s
  }

  /** Whether watcher `w` is registered on the tower. */
  predicate Watching(s: TowerState, w: Object) {
    w.id in Bucket(s.watchers, w.objType)
  }

  /**
   * No tower ever holds the sentinel: no type-0 bucket, and no object id 0
   * (id 0 is always rejected by `Add`).
   */
  predicate ZeroFree(s: TowerState) {
    && 0 !in s.ids
    && 0 !in s.typeMap
    && 0 !in s.watchers
    && (forall t :: t in s.typeMap ==> 0 !in s.typeMap[t])
  }

  // ---------------------------------------------------------------------------
  // Properties of the transitions
  // ---------------------------------------------------------------------------

  /** An untyped object is rejected and the tower is left exactly as it was. */
  lemma AddUntypedRejected(s: TowerState, obj: Object)
    requires obj.objType == 0
    ensures !Accepts(s, obj) && Added(s, obj) == s
  {
  }

  /**
   * A typed object whose id is 0 or already in its type's bucket is rejected;
   * ids, size and watchers are untouched, but the bucket now exists (possibly empty).
   */
  lemma AddDuplicateRejected(s: TowerState, obj: Object)
    requires obj.objType != 0 && (obj.id == 0 || obj.id in Bucket(s.typeMap, obj.objType))
    ensures !Accepts(s, obj)
    ensures var s' := Added(s, obj);
      && s'.ids == s.ids && s'.size == s.size && s'.watchers == s.watchers
      && s'.typeMap.Keys == s.typeMap.Keys + {obj.objType}
      && s'.typeMap[obj.objType] == Bucket(s.typeMap, obj.objType)
      && (forall t :: t in s.typeMap && t != obj.objType ==> s'.typeMap[t] == s.typeMap[t])
  {
  }

  /** A successful add inserts the id in `ids` and in its bucket and counts it once. */
  lemma AddAcceptedEffect(s: TowerState, obj: Object)
    requires Accepts(s, obj)
    ensures var s' := Added(s, obj);
      && s'.ids == s.ids + {obj.id}
      && s'.size == s.size + 1
      && s'.watchers == s.watchers
      && s'.typeMap.Keys == s.typeMap.Keys + {obj.objType}
      && s'.typeMap[obj.objType] == Bucket(s.typeMap, obj.objType) + {obj.id}
      && (forall t :: t in s.typeMap && t != obj.objType ==> s'.typeMap[t] == s.typeMap[t])
  {
  }

  /**
   * `Remove` drops the id from `ids` whatever its type, from its bucket only for
   * a non-zero type, never deletes a bucket, and always decrements `size`.
   */
  lemma RemoveEffect(s: TowerState, obj: Object)
    ensures var s' := Removed(s, obj);
      && s'.ids == s.ids - {obj.id}
      && s'.size == s.size - 1
      && s'.watchers == s.watchers
      && s'.typeMap.Keys == s.typeMap.Keys
      && (forall t :: t in s.typeMap ==>
            s'.typeMap[t] == if t == obj.objType && t != 0 then s.typeMap[t] - {obj.id} else s.typeMap[t])
  {
  }

  /** Removing from an empty tower drives the counter negative: nothing checks the object was there. */
  lemma RemoveFromEmptyGoesNegative(obj: Object)
    ensures Removed(EmptyTower, obj).size == -1
  {
  }

  /**
   * Adding a fresh typed object and removing it again restores ids, size, watchers
   * and the bucket's contents; the only trace is that the bucket now exists.
   */
  lemma AddRemoveRoundTrip(s: TowerState, obj: Object)
    requires obj.id != 0 && obj.objType != 0
    requires obj.id !in s.ids && obj.id !in Bucket(s.typeMap, obj.objType)
    ensures var s' := Removed(Added(s, obj), obj);
      && s'.ids == s.ids
      && s'.size == s.size
      && s'.watchers == s.watchers
      && s'.typeMap == s.typeMap[obj.objType := Bucket(s.typeMap, obj.objType)]
  {
    var a := Added(s, obj);
    assert a.typeMap[obj.objType] == Bucket(s.typeMap, obj.objType) + {obj.id};
    assert (Bucket(s.typeMap, obj.objType) + {obj.id}) - {obj.id} == Bucket(s.typeMap, obj.objType);
    assert (s.ids + {obj.id}) - {obj.id} == s.ids;
  }

  /** Registering a watcher twice is the same as registering it once. */
  lemma WatcherAddedIdempotent(s: TowerState, w: Object)
    ensures WatcherAdded(WatcherAdded(s, w), w) == WatcherAdded(s, w)
  {
  }

  /**
   * `AddWatcher` registers a typed watcher in its bucket and touches no other
   * bucket; an untyped watcher is ignored.
   */
  lemma WatcherAddedEffect(s: TowerState, w: Object)
    ensures w.objType == 0 ==> WatcherAdded(s, w) == s
    ensures w.objType != 0 ==> Watching(WatcherAdded(s, w), w)
    ensures var s' := WatcherAdded(s, w);
      && (forall t :: t in s.watchers && t != w.objType ==> t in s'.watchers && s'.watchers[t] == s.watchers[t])
      && (forall t :: t in s'.watchers && t != w.objType ==> t in s.watchers)
  {
  }

  /**
   * `RemoveWatcher` deletes only the (type, id) entry: the same id under another
   * type stays registered, and the bucket itself stays.
   */
  lemma WatcherRemovedEffect(s: TowerState, w: Object)
    ensures !Watching(WatcherRemoved(s, w), w) || w.objType == 0
    ensures var s' := WatcherRemoved(s, w);
      && s'.watchers.Keys == s.watchers.Keys
      && (forall t :: t in s.watchers ==>
            s'.watchers[t] == if t == w.objType && t != 0 then s.watchers[t] - {w.id} else s.watchers[t])
  {
  }

  /** Object operations never touch the watcher index; watcher operations touch nothing else. */
  lemma IndicesSeparated(s: TowerState, o: Object)
    ensures Added(s, o).watchers == s.watchers && Removed(s, o).watchers == s.watchers
    ensures var a := WatcherAdded(s, o); a.ids == s.ids && a.typeMap == s.typeMap && a.size == s.size
    ensures var r := WatcherRemoved(s, o); r.ids == s.ids && r.typeMap == s.typeMap && r.size == s.size
  {
  }

  /** Every operation keeps the sentinel out of a tower. */
  lemma ZeroFreePreserved(s: TowerState, o: Object)
    requires ZeroFree(s)
    ensures ZeroFree(EmptyTower)
    ensures ZeroFree(Added(s, o)) && ZeroFree(Removed(s, o))
    ensures ZeroFree(WatcherAdded(s, o)) && ZeroFree(WatcherRemoved(s, o))
  {
    var a := Added(s, o);
    if o.objType != 0 && o.id != 0 && o.id !in Bucket(s.typeMap, o.objType) {
      assert forall t :: t in a.typeMap ==> 0 !in a.typeMap[t] by {
        forall t | t in a.typeMap ensures 0 !in a.typeMap[t] {
          if t != o.objType { assert a.typeMap[t] == s.typeMap[t]; }
        }
      }
    }
  }

  /**
   * The cell invariant the design intends: every bucket holds only ids of the
   * tower, every id of the tower sits in some bucket, and `size` counts the ids.
   * The code keeps it only for callers that never add one id under two types
   * and always remove an object under the type it was added with.
   */
  ghost predicate Consistent(s: TowerState) {
    && (forall t :: t in s.typeMap ==> s.typeMap[t] <= s.ids)
    && (forall id :: id in s.ids ==> exists t :: t in s.typeMap && id in s.typeMap[t])
    && s.size == |s.ids|
  }

  /** An add of an id the tower does not hold yet keeps the tower consistent. */
  lemma AddedKeepsConsistent(s: TowerState, o: Object)
    requires Consistent(s) && o.id !in s.ids
    ensures Consistent(EmptyTower)
    ensures Consistent(Added(s, o))
  {
    var a := Added(s, o);
    if Accepts(s, o) {
      assert a.typeMap[o.objType] == Bucket(s.typeMap, o.objType) + {o.id};
      forall id | id in a.ids
        ensures exists t :: t in a.typeMap && id in a.typeMap[t]
      {
        if id == o.id {
          assert id in a.typeMap[o.objType];
        } else {
          var t :| t in s.typeMap && id in s.typeMap[t];
          assert t in a.typeMap && id in a.typeMap[t];
        }
      }
    } else if o.objType != 0 {
      forall id | id in a.ids
        ensures exists t :: t in a.typeMap && id in a.typeMap[t]
      {
        var t :| t in s.typeMap && id in s.typeMap[t];
        assert t in a.typeMap && id in a.typeMap[t];
      }
    }
  }

  /**
   * A remove under the one type whose bucket holds the id keeps the tower
   * consistent.
   */
  lemma RemovedKeepsConsistent(s: TowerState, o: Object)
    requires Consistent(s) && o.objType != 0 && o.id in Bucket(s.typeMap, o.objType)
    requires forall t :: t in s.typeMap && t != o.objType ==> o.id !in s.typeMap[t]
    ensures Consistent(Removed(s, o))
  {
    var r := Removed(s, o);
    assert o.id in s.ids;
    forall id | id in r.ids
      ensures exists t :: t in r.typeMap && id in r.typeMap[t]
    {
      var t :| t in s.typeMap && id in s.typeMap[t];
      assert t in r.typeMap && id in r.typeMap[t];
    }
  }

  /**
   * The code does not keep the invariant for every caller: a remove under the
   * wrong type leaves the id in its bucket but not in `ids`, and the same id
   * added under a second type is counted twice.
   */
  lemma ConsistencyBreaks()
    ensures var s := Added(EmptyTower, Object(5, 1));
      Consistent(s) && !Consistent(Removed(s, Object(5, 0)))
    ensures var s := Added(EmptyTower, Object(5, 1));
      Accepts(s, Object(5, 2)) && Added(s, Object(5, 2)).ids == {5} && Added(s, Object(5, 2)).size == 2
      && !Consistent(Added(s, Object(5, 2)))
  {
    assert Bucket(map[], 1) + {5} == {5};
    var s := Added(EmptyTower, Object(5, 1));
    assert s.typeMap == map[1 := {5}] && s.ids == {5};
    assert 5 in s.typeMap[1];
    var r := Removed(s, Object(5, 0));
    assert 1 in r.typeMap && 5 in r.typeMap[1] && 5 !in r.ids;
  }

  // ---------------------------------------------------------------------------
  // The mutable tower
  // ---------------------------------------------------------------------------

  class Tower {
    var ids: set<int>
    var typeMap: map<int, set<int>>
    var watchers: map<int, set<int>>
    var size: int

    /** The tower's abstract value. */
    function State(): TowerState
      reads this
    {
      TowerState(ids, typeMap, watchers, size)
    }

    /** `CreateTower` / `Init`: a tower with empty indices. */
    constructor ()
      ensures State() == EmptyTower
    {
      ids, typeMap, watchers, size := {}, map[], map[], 0;
    }

    /** Adds an object; returns whether it was accepted. */
    method Add(obj: Object) returns (ok: bool)
      modifies this
      ensures ok == Accepts(old(State()), obj)
      ensures State() == Added(old(State()), obj)
    {
      if obj.objType != 0 {
        if obj.objType !in typeMap {
          typeMap := typeMap[obj.objType := {}];
        }
        // a missing id reads as 0, so id 0 always compares equal
        if obj.id == 0 || obj.id in typeMap[obj.objType] {
          return false;
        }
        ids := ids + {obj.id};
        typeMap := typeMap[obj.objType := typeMap[obj.objType] + {obj.id}];
        size := size + 1;
        return true;
      }
      return false;
    }

    /** Removes an object, unconditionally decrementing the counter. */
    method Remove(obj: Object)
      modifies this
      ensures State() == Removed(old(State()), obj)
    {
      if obj.id in ids {
        ids := ids - {obj.id};
      }
      if obj.objType != 0 {
        if obj.objType in typeMap && obj.id in typeMap[obj.objType] {
          typeMap := typeMap[obj.objType := typeMap[obj.objType] - {obj.id}];
        } else if obj.objType in typeMap {
          assert typeMap[obj.objType] - {obj.id} == typeMap[obj.objType];
        }
      }
      size := size - 1;
    }

    /** All object ids in the tower (a snapshot; Go hands out the internal map). */
    method GetIds() returns (r: set<int>)
      ensures r == State().ids
    {
      r := ids;
    }

    /** Registers a watcher under its type. */
    method AddWatcher(w: Object)
      modifies this
      ensures State() == WatcherAdded(old(State()), w)
    {
      if w.objType != 0 {
        if w.objType !in watchers {
          watchers := watchers[w.objType := {}];
        }
        watchers := watchers[w.objType := watchers[w.objType] + {w.id}];
      }
    }

    /** Unregisters a watcher from its type's bucket. */
    method RemoveWatcher(w: Object)
      modifies this
      ensures State() == WatcherRemoved(old(State()), w)
    {
      if w.objType != 0 {
        if w.objType in watchers && w.id in watchers[w.objType] {
          watchers := watchers[w.objType := watchers[w.objType] - {w.id}];
        } else if w.objType in watchers {
          assert watchers[w.objType] - {w.id} == watchers[w.objType];
        }
      }
    }

    /**
     * The watcher buckets of the requested types: exactly the requested types
     * that have a bucket (even an empty one), each with that bucket's contents.
     */
    method GetWatchers(types: seq<int>) returns (r: map<int, set<int>>)
      ensures r.Keys == set t | t in types && t in watchers
      ensures forall t :: t in r ==> r[t] == watchers[t]
    {
      r := map[];
      if |types| > 0 {
        var i := 0;
        while i < |types|
          invariant 0 <= i <= |types|
          invariant r.Keys == set t | t in types[..i] && t in watchers
          invariant forall t :: t in r ==> t in watchers && r[t] == watchers[t]
        {
          var t := types[i];
          if t in watchers {
            r := r[t := watchers[t]];
          }
          assert types[..i + 1] == types[..i] + [t];
          i := i + 1;
        }
        assert types[..i] == types;
      }
    }

    /**
     * The object buckets of the requested types: exactly the requested types that
     * have a bucket (even one emptied by `Remove`), each with that bucket's contents.
     */
    method GetIdsByTypes(types: seq<int>) returns (r: map<int, set<int>>)
      ensures r.Keys == set t | t in types && t in typeMap
      ensures forall t :: t in r ==> r[t] == typeMap[t]
    {
      r := map[];
      var i := 0;
      while i < |types|
        invariant 0 <= i <= |types|
        invariant r.Keys == set t | t in types[..i] && t in typeMap
        invariant forall t :: t in r ==> t in typeMap && r[t] == typeMap[t]
      {
        var t := types[i];
        if t in typeMap {
          r := r[t := typeMap[t]];
        }
        assert types[..i + 1] == types[..i] + [t];
        i := i + 1;
      }
      assert types[..i] == types;
    }
  }

  /** A fresh tower holding the four objects of the tower test. */
  method FourObjects() returns (tower: Tower)
    ensures fresh(tower)
    ensures tower.State() == TowerState({100, 101, 103, 104}, map[1 := {100, 101}, 2 := {103}, 3 := {104}], map[], 4)
  {
    tower := new Tower();
    var ok := tower.Add(Object(100, 1));
    assert Bucket(map[], 1) + {100} == {100};
    assert tower.typeMap == map[1 := {100}];
    assert Bucket(tower.typeMap, 1) + {101} == {100, 101};
    ok := tower.Add(Object(101, 1));
    assert tower.typeMap == map[1 := {100, 101}];
    assert Bucket(tower.typeMap, 2) + {103} == {103};
    ok := tower.Add(Object(103, 2));
    assert tower.typeMap == map[1 := {100, 101}, 2 := {103}];
    assert Bucket(tower.typeMap, 3) + {104} == {104};
    ok := tower.Add(Object(104, 3));
    assert tower.typeMap == map[1 := {100, 101}, 2 := {103}, 3 := {104}];
    assert tower.ids == {100, 101, 103, 104};
  }

  /** Type filtering in the tower test: one type, then two types at once. */
  method TowerFilterScenario() returns (ofType2: map<int, set<int>>, ofTypes13: map<int, set<int>>)
    ensures ofType2 == map[2 := {103}]
    ensures ofTypes13 == map[1 := {100, 101}, 3 := {104}]
  {
    var tower := FourObjects();
    ofType2 := tower.GetIdsByTypes([2]);
    assert ofType2.Keys == {2} by {
      assert forall t :: t in [2] <==> t == 2;
    }
    ofTypes13 := tower.GetIdsByTypes([1, 3]);
    assert ofTypes13.Keys == {1, 3} by {
      assert forall t :: t in [1, 3] <==> t == 1 || t == 3;
    }
  }

  /** The tower of the tower test after object 101 is removed again. */
  method ThreeObjects() returns (tower: Tower)
    ensures fresh(tower)
    ensures tower.State() == TowerState({100, 103, 104}, map[1 := {100}, 2 := {103}, 3 := {104}], map[], 3)
  {
    tower := FourObjects();
    assert {100, 101} - {101} == {100};
    assert {100, 101, 103, 104} - {101} == {100, 103, 104};
    tower.Remove(Object(101, 1));
    assert tower.typeMap == map[1 := {100}, 2 := {103}, 3 := {104}];
  }

  /**
   * Removal in the tower test: removing both type-1 objects leaves an empty
   * type-1 bucket that is still reported.
   */
  method TowerRemoveScenario() returns (afterOneRemove: map<int, set<int>>, afterBothRemoved: map<int, set<int>>,
                                        idsLeft: set<int>)
    ensures afterOneRemove == map[1 := {100}]
    ensures afterBothRemoved == map[1 := {}]
    ensures idsLeft == {103, 104}
  {
    var tower := ThreeObjects();
    afterOneRemove := tower.GetIdsByTypes([1]);
    assert afterOneRemove.Keys == {1} by {
      assert forall t :: t in [1] <==> t == 1;
    }
    assert {100} - {100} == {};
    assert {100, 103, 104} - {100} == {103, 104};
    tower.Remove(Object(100, 1));
    assert tower.typeMap == map[1 := {}, 2 := {103}, 3 := {104}];
    afterBothRemoved := tower.GetIdsByTypes([1]);
    assert afterBothRemoved.Keys == {1} by {
      assert forall t :: t in [1] <==> t == 1;
    }
    idsLeft := tower.GetIds();
  }

  /**
   * The watcher half of the tower test: the same watcher id under types 21 and
   * 22; removing it under 22 leaves it under 21 and an empty bucket for 22.
   */
  method TowerWatcherScenario() returns (bothWatchers: map<int, set<int>>, oneWatcher: map<int, set<int>>)
    ensures bothWatchers == map[21 := {201}, 22 := {201}]
    ensures oneWatcher == map[21 := {201}, 22 := {}]
  {
    var tower := new Tower();
    assert Bucket(map[], 21) + {201} == {201};
    tower.AddWatcher(Object(201, 21));
    assert Bucket(tower.watchers, 22) + {201} == {201};
    tower.AddWatcher(Object(201, 22));
    assert tower.watchers == map[21 := {201}, 22 := {201}];
    bothWatchers := tower.GetWatchers([21, 22]);
    assert bothWatchers.Keys == {21, 22} by {
      assert forall t :: t in [21, 22] <==> t == 21 || t == 22;
    }
    tower.RemoveWatcher(Object(201, 22));
    assert tower.watchers == map[21 := {201}, 22 := {}];
    oneWatcher := tower.GetWatchers([21, 22]);
    assert oneWatcher.Keys == {21, 22} by {
      assert forall t :: t in [21, 22] <==> t == 21 || t == 22;
    }
  }
}
