/** The generation-checked handle table (src/mobile_ffi/mod.rs:277-356). */
module Handles {
  import opened Numbers
  import opened Outcomes

  const MAX_HANDLES := 4096

  type Word = n: nat | n <= U32_MAX
  type DoubleWord = n: nat | n <= 0xFFFF_FFFF_FFFF_FFFF

  datatype Handle = Handle(slot: Word, generation: Word)

  // ---------- The 64-bit form ----------

  function ToU64(h: Handle): DoubleWord { h.generation * 0x1_0000_0000 + h.slot }

  function FromU64(value: DoubleWord): Handle { Handle(value % 0x1_0000_0000, value / 0x1_0000_0000) }

  /** The slot is the low half, the generation the high half. */
  lemma HandleBits(h: Handle)
    ensures ToU64(h) % 0x1_0000_0000 == h.slot && ToU64(h) / 0x1_0000_0000 == h.generation
    ensures FromU64(ToU64(h)) == h
  {
  }

  lemma BitsHandle(value: DoubleWord)
    ensures FromU64(value).slot == value % 0x1_0000_0000 && FromU64(value).generation == value / 0x1_0000_0000
    ensures ToU64(FromU64(value)) == value
  {
  }

  /** The source shifts and ors: that is a word with the generation as its quotient
      by 2^32 and the slot as its remainder. */
  lemma ShiftAndOr(generation: bv64, slot: bv64)
    requires generation <= 0xFFFF_FFFF && slot <= 0xFFFF_FFFF
    ensures var value := (generation << 32) | slot;
            value / 0x1_0000_0000 == generation && value % 0x1_0000_0000 == slot
  {
  }

  /** And back: the truncated cast is the remainder, the shift the quotient. */
  lemma TruncateAndShift(value: bv64)
    ensures value & 0xFFFF_FFFF == value % 0x1_0000_0000 && value >> 32 == value / 0x1_0000_0000
  {
  }

  // ---------- The table ----------

  datatype Slot<T> = Slot(generation: Word, value: Option<T>)

  datatype HandleError = InvalidHandle | ResourceExhausted

  predicate Reusable<T>(s: Slot<T>) { s.value.None? && s.generation < U32_MAX }

  /** The slot an insertion takes: the first reusable one, otherwise a new one. */
  function Chosen<T>(slots: seq<Slot<T>>): nat {
    if slots == [] || Reusable(slots[0]) then 0 else 1 + Chosen(slots[1..])
  }

  lemma {:induction false} ChosenIsFirst<T>(slots: seq<Slot<T>>, i: nat)
    requires i <= |slots|
    requires forall j :: 0 <= j < i ==> !Reusable(slots[j])
    requires i < |slots| ==> Reusable(slots[i])
    ensures Chosen(slots) == i
  {
    if i > 0 {
      assert forall j :: 0 <= j < i - 1 ==> slots[1..][j] == slots[j + 1];
      ChosenIsFirst(slots[1..], i - 1);
    }
  }

  lemma {:induction false} ChosenBound<T>(slots: seq<Slot<T>>)
    ensures Chosen(slots) <= |slots|
    ensures Chosen(slots) < |slots| ==> Reusable(slots[Chosen(slots)])
  {
    if slots != [] && !Reusable(slots[0]) { ChosenBound(slots[1..]); }
  }

  function Insertion<T>(slots: seq<Slot<T>>): Result<Handle, HandleError> {
    var i := Chosen(slots);
    ChosenBound(slots);
    if i < |slots| && i <= U32_MAX then Ok(Handle(i, slots[i].generation + 1))
    else if i >= MAX_HANDLES then Err(ResourceExhausted)
    else Ok(Handle(i, 1))
  }

  /** An insertion takes the first slot that is free and can still count, behind them
      all a new one, and fails exactly when 4096 slots are all taken or worn out. */
  lemma InsertionExact<T>(slots: seq<Slot<T>>)
    requires |slots| <= 4096
    ensures Insertion(slots).Err? <==>
              |slots| == 4096 && forall s :: s in slots ==> s.value.Some? || s.generation == 0xFFFF_FFFF
    ensures Insertion(slots).Ok? ==>
              var h := Insertion(slots).value;
              && h.slot <= |slots|
              && (forall s :: s in slots[..h.slot] ==> s.value.Some? || s.generation == 0xFFFF_FFFF)
              && if h.slot < |slots| then slots[h.slot].value.None? && h.generation == slots[h.slot].generation + 1
                 else h.generation == 1
  {
    hide Chosen;
    ChosenBound(slots);
    NoneBefore(slots);
  }

  lemma {:induction false} NoneBefore<T>(slots: seq<Slot<T>>)
    ensures Chosen(slots) <= |slots| && forall i :: 0 <= i < Chosen(slots) ==> !Reusable(slots[i])
  {
    if slots != [] && !Reusable(slots[0]) {
      NoneBefore(slots[1..]);
      assert forall i :: 1 <= i < |slots| ==> slots[i] == slots[1..][i - 1];
    }
  }

  function AfterInsert<T>(slots: seq<Slot<T>>, value: T): seq<Slot<T>> {
    ChosenBound(slots);
    match Insertion(slots)
    case Err(_) => slots
    case Ok(h) =>
      if h.slot < |slots| then slots[h.slot := Slot(h.generation, Some(value))]
      else slots + [Slot(h.generation, Some(value))]
  }

  function Lookup<T>(slots: seq<Slot<T>>, h: Handle): Option<T> {
    if h.slot < |slots| && slots[h.slot].generation == h.generation then slots[h.slot].value else None
  }

  function AfterRemove<T>(slots: seq<Slot<T>>, h: Handle): seq<Slot<T>> {
    if Lookup(slots, h).Some? then slots[h.slot := Slot(h.generation, None)] else slots
  }

  class HandleRegistry<T> {
    var slots: seq<Slot<T>>

    ghost predicate Valid()
      reads this
    {
      |slots| <= MAX_HANDLES
    }

    constructor ()
      ensures Valid() && slots == []
    {
      slots := [];
    }

    method Insert(value: T) returns (r: Result<Handle, HandleError>)
      requires Valid()
      modifies this
      ensures Valid()
      ensures r == Insertion(old(slots)) && slots == AfterInsert(old(slots), value)
    {
      var index := 0;
      while index < |slots|
        invariant 0 <= index <= |slots| && slots == old(slots)
        invariant forall j :: 0 <= j < index ==> !Reusable(slots[j])
      {
        if slots[index].value.None? && slots[index].generation < U32_MAX {
          ChosenIsFirst(slots, index);
          var generation: Word := slots[index].generation + 1;
          slots := slots[index := Slot(generation, Some(value))];
          return Ok(Handle(index, generation));
        }
        index := index + 1;
      }
      ChosenIsFirst(slots, |slots|);
      if |slots| >= MAX_HANDLES { return Err(ResourceExhausted); }
      slots := slots + [Slot(1, Some(value))];
      return Ok(Handle(|slots| - 1, 1));
    }

    /** `with` and `get`. */
    method Get(h: Handle) returns (r: Result<T, HandleError>)
      ensures r == match Lookup(slots, h) case Some(v) => Ok(v) case None => Err(InvalidHandle)
    {
      if h.slot >= |slots| || slots[h.slot].generation != h.generation { return Err(InvalidHandle); }
      if slots[h.slot].value.None? { return Err(InvalidHandle); }
      return Ok(slots[h.slot].value.value);
    }

    method Remove(h: Handle) returns (r: Result<T, HandleError>)
      requires Valid()
      modifies this
      ensures Valid() && slots == AfterRemove(old(slots), h)
      ensures r == match Lookup(old(slots), h) case Some(v) => Ok(v) case None => Err(InvalidHandle)
    {
      if h.slot >= |slots| || slots[h.slot].generation != h.generation { return Err(InvalidHandle); }
      var taken := slots[h.slot].value;
      slots := slots[h.slot := slots[h.slot].(value := None)];
      if taken.None? { return Err(InvalidHandle); }
      return Ok(taken.value);
    }
  }

  // ---------- Runs ----------

  datatype Op<T> = Insert(value: T) | Remove(handle: Handle)

  /** `issued` lists the handles callers were given, in order; `live` is the map the
      table stands for, changed only by what callers asked and were answered. */
  datatype Run<T> = Run(slots: seq<Slot<T>>, issued: seq<Handle>, live: map<Handle, T>)

  function Step<T>(r: Run<T>, op: Op<T>): Run<T> {
    match op
    case Insert(v) => (
      match Insertion(r.slots)
      case Ok(h) => Run(AfterInsert(r.slots, v), r.issued + [h], r.live[h := v])
      case Err(_) => r.(slots := AfterInsert(r.slots, v)))
    case Remove(h) => Run(AfterRemove(r.slots, h), r.issued, r.live - {h})
  }

  function Execute<T>(ops: seq<Op<T>>): Run<T> {
    if ops == [] then Run([], [], map[]) else Step(Execute(ops[..|ops| - 1]), ops[|ops| - 1])
  }

  /** A handle its slot has moved past, or moved onto. */
  predicate Reached<T>(slots: seq<Slot<T>>, h: Handle) {
    h.slot < |slots| && 1 <= h.generation <= slots[h.slot].generation
  }

  ghost predicate Refines<T(!new)>(r: Run<T>) {
    && |r.slots| <= MAX_HANDLES
    && (forall i :: 0 <= i < |r.issued| ==> Reached(r.slots, r.issued[i]))
    && (forall i, j :: 0 <= i < j < |r.issued| ==> r.issued[i] != r.issued[j])
    && (forall h :: h in r.live ==> h in r.issued)
    && (forall h :: Lookup(r.slots, h) == if h in r.live then Some(r.live[h]) else None)
  }

  lemma InsertKeeps<T(!new)>(r: Run<T>, value: T)
    requires Refines(r)
    ensures Refines(Step(r, Insert(value)))
  {
    hide Chosen;
    ChosenBound(r.slots);
    var after := Step(r, Insert(value));
    if Insertion(r.slots).Ok? {
      var h := Insertion(r.slots).value;
      assert !Reached(r.slots, h);
      forall g: Handle
        ensures Lookup(after.slots, g) == if g in after.live then Some(after.live[g]) else None
      {
        assert Lookup(r.slots, g) == if g in r.live then Some(r.live[g]) else None;
        assert g.slot == h.slot && g != h ==> Lookup(after.slots, g) == None && g !in r.live;
      }
    }
  }

  lemma RemoveKeeps<T(!new)>(r: Run<T>, h: Handle)
    requires Refines(r)
    ensures Refines(Step(r, Remove(h)))
  {
    var after := Step(r, Remove(h));
    forall g: Handle
      ensures Lookup(after.slots, g) == if g in after.live then Some(after.live[g]) else None
    {
      assert Lookup(r.slots, g) == if g in r.live then Some(r.live[g]) else None;
    }
  }

  /** On every run the table is the map it stands for, no handle is given out
      twice, and there are at most 4096 slots. */
  lemma {:induction false} TableRefinesMap<T(!new)>(ops: seq<Op<T>>)
    ensures Refines(Execute(ops))
  {
    if ops != [] {
      var before := Execute(ops[..|ops| - 1]);
      TableRefinesMap(ops[..|ops| - 1]);
      match ops[|ops| - 1]
      case Insert(v) => InsertKeeps(before, v);
      case Remove(h) => RemoveKeeps(before, h);
    }
  }

  lemma ExecuteSnoc<T>(ops: seq<Op<T>>, more: seq<Op<T>>)
    requires more != []
    ensures Execute(ops + more) == Step(Execute(ops + more[..|more| - 1]), more[|more| - 1])
  {
    assert (ops + more)[..|ops + more| - 1] == ops + more[..|more| - 1];
  }

  /** A handle given out once and no longer live stays invalid whatever follows. */
  lemma {:induction false} RemovedForever<T(!new)>(ops: seq<Op<T>>, h: Handle, more: seq<Op<T>>)
    requires h in Execute(ops).issued && h !in Execute(ops).live
    ensures h in Execute(ops + more).issued && h !in Execute(ops + more).live
    ensures Lookup(Execute(ops + more).slots, h) == None
  {
    hide Insertion, AfterInsert, AfterRemove, Lookup, Reached;
    TableRefinesMap(ops + more);
    if more == [] {
      assert ops + more == ops;
    } else {
      var before := Execute(ops + more[..|more| - 1]);
      var after := Execute(ops + more);
      RemovedForever(ops, h, more[..|more| - 1]);
      ExecuteSnoc(ops, more);
      var k :| 0 <= k < |before.issued| && before.issued[k] == h;
      assert after.issued[k] == h;
      if |after.issued| > |before.issued| {
        assert after.issued[|before.issued|] != h;
      }
    }
  }

  /** A freed slot whose generation has run out is never used again. */
  lemma {:induction false} ExhaustedSlotRetires<T(!new)>(ops: seq<Op<T>>, i: nat, more: seq<Op<T>>)
    requires i < |Execute(ops).slots| && Execute(ops).slots[i] == Slot(U32_MAX, None)
    ensures i < |Execute(ops + more).slots| && Execute(ops + more).slots[i] == Slot(U32_MAX, None)
  {
    hide Chosen;
    if more == [] {
      assert ops + more == ops;
    } else {
      ExhaustedSlotRetires(ops, i, more[..|more| - 1]);
      ExecuteSnoc(ops, more);
      ChosenBound(Execute(ops + more[..|more| - 1]).slots);
    }
  }
}
