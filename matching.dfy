/**
 * The drag-and-drop matching board of lets_quiz/static/js/quiz_matching.js.
 *
 * The page has left items, each with a drop target (its slot) and a hidden input
 * mapping_<left id> whose value is the right id assigned to it ("" for none), and a
 * pool of right items. The handlers move right items between the pool and the slots
 * and keep the hidden inputs in step, so that each slot holds at most one item and
 * each right item is assigned to at most one left item.
 */
module Matching {
  import opened Wrappers

  /** Where a right item's element sits. */
  datatype Location = Pool | Slot(leftId: string)

  /** Each slot holds at most one right item. */
  ghost predicate SlotsHoldAtMostOne(location: map<string, Location>)
  {
    forall r1, r2 :: r1 in location && r2 in location && r1 != r2 && location[r1].Slot? ==> location[r1] != location[r2]
  }

  /** No right id is the value of two hidden inputs. */
  ghost predicate Injective(mapping: map<string, string>)
  {
    forall l1, l2 :: l1 in mapping && l2 in mapping && l1 != l2 && mapping[l1] != "" ==> mapping[l1] != mapping[l2]
  }

  /** The inputs whose value is rightId emptied, except for the input of keep, if any. */
  function ClearOthers(mapping: map<string, string>, rightId: string, keep: Option<string>): (m: map<string, string>)
    ensures m.Keys == mapping.Keys
  {
    map l | l in mapping :: if mapping[l] == rightId && keep != Some(l) then "" else mapping[l]
  }

  /** Inputs after dropping rightId on leftId: rightId is removed elsewhere and set here. */
  function MappingAfterLeftDrop(mapping: map<string, string>, leftId: string, rightId: string): map<string, string>
  {
    var cleared := ClearOthers(mapping, rightId, Some(leftId));
    if leftId in mapping then cleared[leftId := rightId] else cleared
  }

  /** Locations after dropping rightId on leftId: the slot's occupant goes to the pool. */
  function LocationAfterLeftDrop(location: map<string, Location>, leftId: string, rightId: string): map<string, Location>
  {
    Evicted(location, leftId)[rightId := Slot(leftId)]
  }

  /** Locations with the occupant of the slot leftId, if any, back in the pool. */
  function Evicted(location: map<string, Location>, leftId: string): (loc: map<string, Location>)
    ensures loc.Keys == location.Keys
    ensures forall r :: r in loc ==> loc[r] != Slot(leftId)
  {
    map r | r in location :: if location[r] == Slot(leftId) then Pool else location[r]
  }

  /** When the slot is occupied, evicting moves exactly its one occupant. */
  lemma EvictOccupant(location: map<string, Location>, leftId: string, existing: string)
    requires SlotsHoldAtMostOne(location)
    requires existing in location && location[existing] == Slot(leftId)
    ensures Evicted(location, leftId) == location[existing := Pool]
  {
  }

  /** When the slot is empty, evicting changes nothing. */
  lemma EvictNobody(location: map<string, Location>, leftId: string)
    requires forall r :: r in location ==> location[r] != Slot(leftId)
    ensures Evicted(location, leftId) == location
  {
  }

  /** Inputs after dropping rightId on the pool: every input holding it is emptied. */
  function MappingAfterPoolDrop(mapping: map<string, string>, rightId: string): map<string, string>
  {
    ClearOthers(mapping, rightId, None)
  }

  /**
   * After a left drop the dropped item's input and slot agree and the mapping stays
   * injective; inputs that held other values keep them.
   */
  lemma LeftDropMapping(mapping: map<string, string>, leftId: string, rightId: string)
    requires Injective(mapping) && rightId != ""
    ensures var m := MappingAfterLeftDrop(mapping, leftId, rightId);
            && m.Keys == mapping.Keys
            && (leftId in mapping ==> m[leftId] == rightId)
            && (forall l :: l in mapping && l != leftId ==> m[l] != rightId)
            && (forall l :: l in mapping && l != leftId && mapping[l] != rightId ==> m[l] == mapping[l])
            && Injective(m)
  {
    var m := MappingAfterLeftDrop(mapping, leftId, rightId);
    var cleared := ClearOthers(mapping, rightId, Some(leftId));
    forall l1, l2 | l1 in m && l2 in m && l1 != l2 && m[l1] != "" ensures m[l1] != m[l2] {
      if l1 != leftId && l2 != leftId {
        assert m[l1] == cleared[l1] && m[l2] == cleared[l2];
      }
    }
  }

  /** After a left drop each slot still holds at most one item, and the item sits in its slot. */
  lemma LeftDropLocation(location: map<string, Location>, leftId: string, rightId: string)
    requires SlotsHoldAtMostOne(location) && rightId in location
    ensures var loc := LocationAfterLeftDrop(location, leftId, rightId);
            && loc.Keys == location.Keys
            && loc[rightId] == Slot(leftId)
            && (forall r :: r in location && r != rightId && location[r] == Slot(leftId) ==> loc[r] == Pool)
            && (forall r :: r in location && r != rightId && location[r] != Slot(leftId) ==> loc[r] == location[r])
            && SlotsHoldAtMostOne(loc)
  {
    var loc := LocationAfterLeftDrop(location, leftId, rightId);
    var evicted := Evicted(location, leftId);
    forall r1, r2 | r1 in loc && r2 in loc && r1 != r2 && loc[r1].Slot? ensures loc[r1] != loc[r2] {
      if r1 != rightId && r2 != rightId {
        assert loc[r1] == evicted[r1] && loc[r2] == evicted[r2];
      } else if r1 == rightId {
        assert loc[r2] == evicted[r2];
      } else {
        assert loc[r1] == evicted[r1];
      }
    }
  }

  /** A pool drop keeps the mapping injective and leaves no input holding the item. */
  lemma PoolDropMapping(mapping: map<string, string>, rightId: string)
    requires Injective(mapping)
    ensures var m := MappingAfterPoolDrop(mapping, rightId);
            && (forall l :: l in m ==> m[l] != rightId || rightId == "")
            && Injective(m)
  {
  }

  /** A pool drop keeps every slot holding at most one item. */
  lemma PoolDropLocation(location: map<string, Location>, rightId: string)
    requires SlotsHoldAtMostOne(location)
    ensures SlotsHoldAtMostOne(location[rightId := Pool])
  {
  }

  /** The matching page's drag-and-drop state. */
  class Board {
    /** The left ids of the mapping_ inputs, in document order. */
    var inputs: seq<string>
    /** The value of each hidden input. */
    var mapping: map<string, string>
    /** The left ids of the drop targets. */
    var drops: set<string>
    /** Where each right item (by its data-right-id) sits. */
    var location: map<string, Location>
    /** draggedEl, by its right id. */
    var draggedEl: Option<string>
    /** draggedId; "" stands for both null and the empty string, which JavaScript treats alike here. */
    var draggedId: string

    ghost predicate Valid()
      reads this
    {
      && (forall i :: 0 <= i < |inputs| ==> inputs[i] in mapping)
      && (forall l :: l in mapping ==> l in inputs)
      && (forall i, j :: 0 <= i < j < |inputs| ==> inputs[i] != inputs[j])
      && SlotsHoldAtMostOne(location)
      && Injective(mapping)
      && (draggedEl.Some? ==> draggedEl.value in location)
      && (draggedId != "" ==> draggedEl == Some(draggedId))
    }

    /** The board as rendered: every input empty, every right item in the pool. */
    constructor (inputs: seq<string>, drops: set<string>, items: set<string>)
      requires forall i, j :: 0 <= i < j < |inputs| ==> inputs[i] != inputs[j]
      ensures Valid()
      ensures this.inputs == inputs && this.drops == drops
      ensures mapping == map l | l in inputs :: ""
      ensures location == map r | r in items :: Pool
      ensures draggedEl == None && draggedId == ""
    {
      this.inputs := inputs;
      this.drops := drops;
      mapping := map l | l in inputs :: "";
      location := map r | r in items :: Pool;
      draggedEl := None;
      draggedId := "";
    }

    /** The dragstart handler of the item rightId. */
    method DragStart(rightId: string)
      requires Valid() && rightId in location
      modifies this
      ensures Valid()
      ensures draggedEl == Some(rightId) && draggedId == rightId
      ensures inputs == old(inputs) && mapping == old(mapping) && drops == old(drops) && location == old(location)
    {
      draggedEl := Some(rightId);
      draggedId := rightId;
    }

    /**
     * The drop handler of the drop target leftId; transfer is the text/plain data
     * of the event's dataTransfer, None when the event has none.
     */
    method DropOnLeft(leftId: string, transfer: Option<string>)
      requires Valid() && leftId in drops
      modifies this
      ensures Valid()
      ensures inputs == old(inputs) && drops == old(drops) && draggedId == old(draggedId)
      ensures draggedEl == if old(draggedId) == "" && transfer.Some? then
                             (if transfer.value in old(location) then Some(transfer.value) else None)
                           else old(draggedEl)
      ensures var rightId := if old(draggedId) == "" && transfer.Some? then transfer.value else old(draggedId);
              if rightId == "" || rightId !in old(location) then
                mapping == old(mapping) && location == old(location)
              else
                && mapping == MappingAfterLeftDrop(old(mapping), leftId, rightId)
                && location == LocationAfterLeftDrop(old(location), leftId, rightId)
    {
      var rightId := draggedId;
      if rightId == "" && transfer.Some? {
        rightId := transfer.value;
        draggedEl := if rightId in location then Some(rightId) else None;
      }
      if draggedEl.None? || rightId == "" {
        return;
      }
      var m, loc := PlaceOnLeft(inputs, drops, mapping, location, leftId, rightId);
      LeftDropMapping(mapping, leftId, rightId);
      LeftDropLocation(location, leftId, rightId);
      mapping, location := m, loc;
    }

    /** The drop handler of the pool. */
    method DropOnPool(transfer: Option<string>)
      requires Valid()
      modifies this
      ensures Valid()
      ensures inputs == old(inputs) && drops == old(drops)
      ensures draggedEl == old(draggedEl) && draggedId == old(draggedId)
      ensures var rightId := if old(draggedId) == "" && transfer.Some? then transfer.value else old(draggedId);
              if rightId == "" || rightId !in old(location) then
                mapping == old(mapping) && location == old(location)
              else
                && mapping == MappingAfterPoolDrop(old(mapping), rightId)
                && location == old(location)[rightId := Pool]
    {
      var rightId := draggedId;
      if rightId == "" && transfer.Some? {
        rightId := transfer.value;
      }
      if rightId == "" {
        return;
      }
      if rightId !in location {
        return;
      }
      var m := ClearInputs(inputs, mapping, rightId);
      PoolDropMapping(mapping, rightId);
      PoolDropLocation(location, rightId);
      mapping, location := m, location[rightId := Pool];
    }
  }

  /**
   * The body of the left drop once the dragged item rightId is known: the slot's
   * occupant goes back to the pool, rightId leaves every other input and slot, then
   * it moves into the slot and mapping_<leftId>, when that input exists, records it.
   */
  method PlaceOnLeft(inputs: seq<string>, drops: set<string>, mapping: map<string, string>,
                     location: map<string, Location>, leftId: string, rightId: string)
    returns (m: map<string, string>, loc: map<string, Location>)
    requires forall i :: 0 <= i < |inputs| ==> inputs[i] in mapping
    requires forall l :: l in mapping ==> l in inputs
    requires SlotsHoldAtMostOne(location)
    ensures m == MappingAfterLeftDrop(mapping, leftId, rightId)
    ensures loc == LocationAfterLeftDrop(location, leftId, rightId)
  {
    loc := location;
    if existing :| existing in loc && loc[existing] == Slot(leftId) {
      loc := loc[existing := Pool];
      EvictOccupant(location, leftId, existing);
    } else {
      EvictNobody(location, leftId);
    }
    ghost var evicted := loc;
    m, loc := ClearOtherInputs(inputs, drops, mapping, loc, rightId, leftId);
    loc := loc[rightId := Slot(leftId)];
    assert loc == evicted[rightId := Slot(leftId)];
    if leftId in m {
      m := m[leftId := rightId];
    }
  }

  /** The inputs after a pass that has visited the ids in visited, in order. */
  function ClearedAlong(visited: seq<string>, mapping: map<string, string>, rightId: string, keep: Option<string>): map<string, string>
  {
    if visited == [] then mapping
    else
      var m := ClearedAlong(visited[..|visited| - 1], mapping, rightId, keep);
      var l := visited[|visited| - 1];
      if l in m && m[l] == rightId && keep != Some(l) then m[l := ""] else m
  }

  /** A pass changes values, never which inputs exist. */
  lemma {:induction false} ClearedAlongKeys(visited: seq<string>, mapping: map<string, string>, rightId: string, keep: Option<string>)
    ensures ClearedAlong(visited, mapping, rightId, keep).Keys == mapping.Keys
  {
    if visited != [] {
      ClearedAlongKeys(visited[..|visited| - 1], mapping, rightId, keep);
    }
  }

  /** The input of l is emptied exactly when the pass visited it and it held rightId and is not keep's. */
  lemma {:induction false} ClearedAlongAt(visited: seq<string>, mapping: map<string, string>, rightId: string, keep: Option<string>, l: string)
    requires l in mapping
    ensures ClearedAlong(visited, mapping, rightId, keep).Keys == mapping.Keys
    ensures ClearedAlong(visited, mapping, rightId, keep)[l]
            == if l in visited && mapping[l] == rightId && keep != Some(l) then "" else mapping[l]
  {
    ClearedAlongKeys(visited, mapping, rightId, keep);
    if visited != [] {
      var prefix := visited[..|visited| - 1];
      ClearedAlongAt(prefix, mapping, rightId, keep, l);
      assert visited == prefix + [visited[|visited| - 1]];
    }
  }

  /** Once the pass has visited every input, it has produced ClearOthers. */
  lemma ClearedAlongAll(inputs: seq<string>, mapping: map<string, string>, rightId: string, keep: Option<string>)
    requires forall l :: l in mapping ==> l in inputs
    ensures ClearedAlong(inputs, mapping, rightId, keep) == ClearOthers(mapping, rightId, keep)
  {
    var m := ClearedAlong(inputs, mapping, rightId, keep);
    ClearedAlongKeys(inputs, mapping, rightId, keep);
    forall l | l in mapping ensures m[l] == ClearOthers(mapping, rightId, keep)[l] {
      ClearedAlongAt(inputs, mapping, rightId, keep, l);
    }
  }

  /**
   * The left drop's pass over the inputs: every input other than mapping_<leftId>
   * holding rightId is emptied, and when its drop target's slot holds rightId the
   * item goes back to the pool.
   */
  method ClearOtherInputs(inputs: seq<string>, drops: set<string>, mapping: map<string, string>,
                          location: map<string, Location>, rightId: string, leftId: string)
    returns (m: map<string, string>, loc: map<string, Location>)
    requires forall i :: 0 <= i < |inputs| ==> inputs[i] in mapping
    requires forall l :: l in mapping ==> l in inputs
    ensures m == ClearOthers(mapping, rightId, Some(leftId))
    ensures loc == location || loc == location[rightId := Pool]
  {
    m, loc := mapping, location;
    var k := 0;
    while k < |inputs|
      invariant 0 <= k <= |inputs|
      invariant m == ClearedAlong(inputs[..k], mapping, rightId, Some(leftId))
      invariant loc == location || loc == location[rightId := Pool]
    {
      var input := inputs[k];
      assert inputs[..k + 1][..k] == inputs[..k];
      ClearedAlongKeys(inputs[..k], mapping, rightId, Some(leftId));
      if m[input] == rightId && input != leftId {
        m := m[input := ""];
        if input in drops {
          if previous :| previous in loc && loc[previous] == Slot(input) {
            if previous == rightId {
              loc := loc[rightId := Pool];
            }
          }
        }
      }
      k := k + 1;
    }
    assert inputs[..|inputs|] == inputs;
    ClearedAlongAll(inputs, mapping, rightId, Some(leftId));
  }

  /** The pool drop's pass over the inputs: every input holding rightId is emptied. */
  method ClearInputs(inputs: seq<string>, mapping: map<string, string>, rightId: string) returns (m: map<string, string>)
    requires forall i :: 0 <= i < |inputs| ==> inputs[i] in mapping
    requires forall l :: l in mapping ==> l in inputs
    ensures m == MappingAfterPoolDrop(mapping, rightId)
  {
    m := mapping;
    var k := 0;
    while k < |inputs|
      invariant 0 <= k <= |inputs|
      invariant m == ClearedAlong(inputs[..k], mapping, rightId, None)
    {
      var input := inputs[k];
      assert inputs[..k + 1][..k] == inputs[..k];
      ClearedAlongKeys(inputs[..k], mapping, rightId, None);
      if m[input] == rightId {
        m := m[input := ""];
      }
      k := k + 1;
    }
    assert inputs[..|inputs|] == inputs;
    ClearedAlongAll(inputs, mapping, rightId, None);
  }

  /**
   * The Fisher-Yates shuffle of the right items. Math.random is a free choice
   * here: any j with 0 <= j <= i.
   */
  method Shuffle(items: array<string>)
    modifies items
    ensures multiset(items[..]) == old(multiset(items[..]))
    ensures items.Length <= 1 ==> items[..] == old(items[..])
  {
    if items.Length > 1 {
      var i := items.Length - 1;
      while i > 0
        invariant 0 <= i < items.Length
        invariant multiset(items[..]) == old(multiset(items[..]))
      {
        var j :| 0 <= j <= i;
        items[i], items[j] := items[j], items[i];
        i := i - 1;
      }
    }
  }
}
