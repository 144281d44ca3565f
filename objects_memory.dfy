/** The cameras' shared memory of observed objects (ObjectsMemory.kt): a
    map from each camera to its last report (time and objects) and a map
    from each object to the camera it is attributed to. The memory is a
    persistent value: `Insert` works on copies and returns a new memory,
    so the receiver never changes. */
module ObjectsMemory {

  /** `Record`: the time of a camera's report and the objects in it. */
  datatype Record<V(==,!new)> = Record(time: real, objects: seq<V>)
  {
    /** `remove(node)` as written: keeps the objects EQUAL to `node`
        (`filter { it == node }`) and the time. */
    function Remove(node: V): (r: Record<V>)
      ensures r.time == time
      ensures |r.objects| == multiset(objects)[node]
      ensures forall i :: 0 <= i < |r.objects| ==> r.objects[i] == node
    {
      Record(time, Keep(objects, node))
    }
  }

  /** `filter { it == node }`. */
  function Keep<V(==,!new)>(objects: seq<V>, node: V): (kept: seq<V>)
    ensures |kept| == multiset(objects)[node]
    ensures forall i :: 0 <= i < |kept| ==> kept[i] == node
  {
    if |objects| == 0 then []
    else
      var init := objects[..|objects| - 1];
      assert objects == init + [objects[|objects| - 1]];
      Keep(init, node) + (if objects[|objects| - 1] == node then [node] else [])
  }

  /** `ObjectsMemory`: the two maps. */
  datatype Memory<D(==), V(==,!new)> = Memory(camToObjMap: map<D, Record<V>>, objToCamMap: map<V, D>)

  /** The public constructor: an empty memory. */
  function Empty<D(==), V(==,!new)>(): (m: Memory<D, V>)
    ensures m.camToObjMap == map[] && m.objToCamMap == map[]
  {
    Memory(map[], map[])
  }

  /** The working copies of `insert` while it scans the targets. */
  datatype Scan<D(==), V(==,!new)> = Scan(camToObjMap: map<D, Record<V>>, objToCamMap: map<V, D>, newTargets: seq<V>)

  /** One iteration of the `forEach` over the targets: an object attributed
      to a camera whose record is strictly older than `time` is detached
      from it (the record filtered by `remove`, and dropped when that
      leaves it empty) and collected; any other object is ignored. */
  function DetachStep<D(==), V(==,!new)>(st: Scan<D, V>, newObj: V, time: real): (r: Scan<D, V>)
    ensures (newObj in st.objToCamMap && st.objToCamMap[newObj] in st.camToObjMap
             && st.camToObjMap[st.objToCamMap[newObj]].time < time) ==>
              var cam := st.objToCamMap[newObj];
              var newRecord := st.camToObjMap[cam].Remove(newObj);
              r.objToCamMap == st.objToCamMap - {newObj}
              && r.newTargets == st.newTargets + [newObj]
              && (|newRecord.objects| == 0 ==> r.camToObjMap == st.camToObjMap - {cam})
              && (|newRecord.objects| > 0 ==> r.camToObjMap == st.camToObjMap[cam := newRecord])
    ensures !(newObj in st.objToCamMap && st.objToCamMap[newObj] in st.camToObjMap
              && st.camToObjMap[st.objToCamMap[newObj]].time < time)
            ==> r == st
  {
    if newObj in st.objToCamMap && st.objToCamMap[newObj] in st.camToObjMap then
      var cam := st.objToCamMap[newObj];
      var record := st.camToObjMap[cam];
      if record.time < time then
        var newRecord := record.Remove(newObj);
        Scan(if |newRecord.objects| == 0 then st.camToObjMap - {cam} else st.camToObjMap[cam := newRecord],
             st.objToCamMap - {newObj}, st.newTargets + [newObj])
      else st
    else st
  }

  /** The working copies after scanning `targets`. */
  function Detached<D(==), V(==,!new)>(memory: Memory<D, V>, time: real, targets: seq<V>): Scan<D, V>
  {
    if |targets| == 0 then Scan(memory.camToObjMap, memory.objToCamMap, [])
    else DetachStep(Detached(memory, time, targets[..|targets| - 1]), targets[|targets| - 1], time)
  }

  /** `old.objects.forEach { remove(it) }` then
      `new.objects.forEach { this[it] = devId }`. */
  function Reassigned<D(==), V(==,!new)>(objToCamMap: map<V, D>, oldObjects: seq<V>, newObjects: seq<V>, devId: D)
    : (r: map<V, D>)
    ensures forall o :: o in newObjects ==> o in r && r[o] == devId
    ensures forall o :: o !in newObjects ==> (o in r <==> o in objToCamMap && o !in oldObjects)
    ensures forall o :: o in r && o !in newObjects ==> r[o] == objToCamMap[o]
  {
    map o | o in (objToCamMap.Keys - set x | x in oldObjects) + (set x | x in newObjects)
      :: if o in newObjects then devId else objToCamMap[o]
  }

  /** The `merge` of the new record under `devId`: stored when `devId` had
      no record; replacing the old record (and moving the attributions)
      when the old one is strictly older; otherwise the old record stays. */
  function MergeRecord<D(==), V(==,!new)>(st: Scan<D, V>, devId: D, time: real): (m: Memory<D, V>)
    ensures devId in m.camToObjMap
  {
    var newRecord := Record(time, st.newTargets);
    if devId !in st.camToObjMap then
      Memory(st.camToObjMap[devId := newRecord], st.objToCamMap)
    else if st.camToObjMap[devId].time < newRecord.time then
      Memory(st.camToObjMap[devId := newRecord],
             Reassigned(st.objToCamMap, st.camToObjMap[devId].objects, newRecord.objects, devId))
    else
      Memory(st.camToObjMap, st.objToCamMap)
  }

  /** The memory `insert` returns. */
  function Inserted<D(==), V(==,!new)>(memory: Memory<D, V>, devId: D, time: real, targets: seq<V>): Memory<D, V>
  {
    MergeRecord(Detached(memory, time, targets), devId, time)
  }

  /** `insert(devId, time, objects)`: copies both maps, detaches the
      targets now reported by `devId` from older reports, and merges the
      new record; the targets are the objects already converted from the
      tuple. */
  method Insert<D(==), V(==,!new)>(memory: Memory<D, V>, devId: D, time: real, targets: seq<V>) returns (result: Memory<D, V>)
    ensures result == Inserted(memory, devId, time, targets)
    ensures devId in result.camToObjMap
  {
    var newCamToObjMap, newObjToCamMap, newTargets := DetachTargets(memory, time, targets);
    var newRecord := Record(time, newTargets);
    if devId !in newCamToObjMap {
      newCamToObjMap := newCamToObjMap[devId := newRecord];
    } else {
      var oldRecord := newCamToObjMap[devId];
      if oldRecord.time < newRecord.time {
        newObjToCamMap := ReassignObjects(newObjToCamMap, oldRecord.objects, newRecord.objects, devId);
        newCamToObjMap := newCamToObjMap[devId := newRecord];
      }
    }
    result := Memory(newCamToObjMap, newObjToCamMap);
  }

  /** The `forEach` over the targets in `insert`, on copies of the two maps. */
  method DetachTargets<D(==), V(==,!new)>(memory: Memory<D, V>, time: real, targets: seq<V>)
    returns (newCamToObjMap: map<D, Record<V>>, newObjToCamMap: map<V, D>, newTargets: seq<V>)
    ensures Scan(newCamToObjMap, newObjToCamMap, newTargets) == Detached(memory, time, targets)
  {
    newCamToObjMap := memory.camToObjMap;
    newObjToCamMap := memory.objToCamMap;
    newTargets := [];
    for i := 0 to |targets|
      invariant Scan(newCamToObjMap, newObjToCamMap, newTargets) == Detached(memory, time, targets[..i])
    {
      assert targets[..i + 1][..i] == targets[..i];
      var newObj := targets[i];
      if newObj in newObjToCamMap {
        var cam := newObjToCamMap[newObj];
        if cam in newCamToObjMap {
          var record := newCamToObjMap[cam];
          if record.time < time {
            var newRecord := record.Remove(newObj);
            newObjToCamMap := newObjToCamMap - {newObj};
            if |newRecord.objects| == 0 {
              newCamToObjMap := newCamToObjMap - {cam};
            } else {
              newCamToObjMap := newCamToObjMap[cam := newRecord];
            }
            newTargets := newTargets + [newObj];
          }
        }
      }
    }
    assert targets[..|targets|] == targets;
  }

  /** The attribution update of `merge` when the new record replaces an
      older one: the old record's objects are removed, then the new
      record's objects are attributed to `devId`. */
  method ReassignObjects<D(==), V(==,!new)>(objToCamMap: map<V, D>, oldObjects: seq<V>, newObjects: seq<V>, devId: D)
    returns (r: map<V, D>)
    ensures r == Reassigned(objToCamMap, oldObjects, newObjects, devId)
  {
    r := objToCamMap;
    for i := 0 to |oldObjects|
      invariant r == objToCamMap - set x | x in oldObjects[..i]
    {
      assert oldObjects[..i + 1] == oldObjects[..i] + [oldObjects[i]];
      r := r - {oldObjects[i]};
    }
    assert oldObjects[..|oldObjects|] == oldObjects;
    ghost var cleared := r;
    for i := 0 to |newObjects|
      invariant r.Keys == cleared.Keys + set x | x in newObjects[..i]
      invariant forall o :: o in newObjects[..i] ==> r[o] == devId
      invariant forall o :: o in r && o !in newObjects[..i] ==> r[o] == cleared[o]
    {
      assert newObjects[..i + 1] == newObjects[..i] + [newObjects[i]];
      r := r[newObjects[i] := devId];
    }
    assert newObjects[..|newObjects|] == newObjects;
  }

  // ---------------------------------------------------------------------
  // Properties of `insert`

  /** Scanning never adds cameras or attributions, never changes the time
      of a record, never touches a record that is not strictly older than
      `time`, and collects only targets that were attributed to a camera
      with such an older record. */
  lemma {:induction false} DetachedFacts<D, V(!new)>(memory: Memory<D, V>, time: real, targets: seq<V>)
    ensures var st := Detached(memory, time, targets);
            st.camToObjMap.Keys <= memory.camToObjMap.Keys
            && (forall c :: c in st.camToObjMap ==> st.camToObjMap[c].time == memory.camToObjMap[c].time)
            && (forall c :: c in memory.camToObjMap && memory.camToObjMap[c].time >= time ==>
                  c in st.camToObjMap && st.camToObjMap[c] == memory.camToObjMap[c])
            && (forall o :: o in st.objToCamMap ==> o in memory.objToCamMap && st.objToCamMap[o] == memory.objToCamMap[o])
            && (forall o :: o in st.newTargets ==>
                  o in targets && o in memory.objToCamMap && memory.objToCamMap[o] in memory.camToObjMap
                  && memory.camToObjMap[memory.objToCamMap[o]].time < time)
    decreases |targets|
  {
    if |targets| > 0 {
      var init := targets[..|targets| - 1];
      DetachedFacts(memory, time, init);
      var st := Detached(memory, time, init);
      var newObj := targets[|targets| - 1];
      if newObj in st.objToCamMap && st.objToCamMap[newObj] in st.camToObjMap {
        var cam := st.objToCamMap[newObj];
        assert cam == memory.objToCamMap[newObj];
        assert st.camToObjMap[cam].time == memory.camToObjMap[cam].time;
      }
      forall o | o in init ensures o in targets {
        var i :| 0 <= i < |init| && init[i] == o;
        assert targets[i] == o;
      }
    }
  }

  /** A camera whose record is not strictly older than `time` keeps that
      record, whatever it reports (including `devId` itself). */
  lemma InsertKeepsNewerRecord<D, V(!new)>(memory: Memory<D, V>, devId: D, time: real, targets: seq<V>, cam: D)
    requires cam in memory.camToObjMap && memory.camToObjMap[cam].time >= time
    ensures cam in Inserted(memory, devId, time, targets).camToObjMap
    ensures Inserted(memory, devId, time, targets).camToObjMap[cam] == memory.camToObjMap[cam]
  {
    DetachedFacts(memory, time, targets);
  }

  /** A camera without a record gets the record of this report, holding
      exactly the targets detached from older reports. */
  lemma InsertFresh<D, V(!new)>(memory: Memory<D, V>, devId: D, time: real, targets: seq<V>)
    requires devId !in memory.camToObjMap
    ensures Inserted(memory, devId, time, targets).camToObjMap[devId]
            == Record(time, Detached(memory, time, targets).newTargets)
    ensures forall o :: o in Inserted(memory, devId, time, targets).camToObjMap[devId].objects ==>
              o in targets && o in memory.objToCamMap && memory.objToCamMap[o] in memory.camToObjMap
              && memory.camToObjMap[memory.objToCamMap[o]].time < time
  {
    DetachedFacts(memory, time, targets);
  }

  /** As written, `remove` keeps the object it is asked to remove: a record
      that lists `node` still lists it afterwards and is never empty, so
      the camera it was detached from keeps reporting it. */
  lemma RemoveKeepsNode<V(!new)>(record: Record<V>, node: V)
    requires node in record.objects
    ensures node in record.Remove(node).objects
    ensures |record.Remove(node).objects| > 0
  {
    assert multiset(record.objects)[node] > 0;
    assert record.Remove(node).objects[0] == node;
  }

  /** An input for which the above shows: detaching `1` from the report
      `[1, 2]` leaves `[1]`. */
  lemma RemoveExample()
    ensures Record(0.0, [1, 2]).Remove(1) == Record(0.0, [1])
  {
    assert [1, 2][..1] == [1];
    assert [1, 2][..0] == [];
  }

  /** Whether the memory attributes no object to any camera. */
  predicate Unpopulated<D(==), V(==,!new)>(memory: Memory<D, V>)
  {
    memory.objToCamMap == map[] && forall c :: c in memory.camToObjMap ==> memory.camToObjMap[c].objects == []
  }

  /** Only objects already attributed to a camera are ever collected, so
      a memory that starts empty stays without objects whatever is
      inserted: it only gains empty records. */
  lemma InsertKeepsUnpopulated<D, V(!new)>(memory: Memory<D, V>, devId: D, time: real, targets: seq<V>)
    requires Unpopulated(memory)
    ensures Unpopulated(Inserted(memory, devId, time, targets))
    ensures devId in Inserted(memory, devId, time, targets).camToObjMap
  {
    DetachedFacts(memory, time, targets);
    var st := Detached(memory, time, targets);
    assert st.objToCamMap == map[];
    UnpopulatedScan(memory, time, targets);
  }

  /** Without attributions, scanning changes nothing. */
  lemma {:induction false} UnpopulatedScan<D, V(!new)>(memory: Memory<D, V>, time: real, targets: seq<V>)
    requires memory.objToCamMap == map[]
    ensures Detached(memory, time, targets) == Scan(memory.camToObjMap, memory.objToCamMap, [])
    decreases |targets|
  {
    if |targets| > 0 {
      UnpopulatedScan(memory, time, targets[..|targets| - 1]);
    }
  }
}
