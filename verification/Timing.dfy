/** The trigger tables of the CTR driver (ctr/driver/ctrdrvr-pci.c): who owns a slot, who is connected to
    it, and which interrupts are enabled. */
module Timing {

  const RAM: nat := 2048     // CtrDrvrRamTableSIZE
  const SOURCES: nat := 14   // CtrDrvrInterruptSOURCES
  const COUNTERS: nat := 9   // CtrDrvrCOUNTERS
  const OBJECTS: nat := 2048 // CtrDrvrPtimOBJECTS

  datatype Kind = Hard | Ctim | Ptim

  /** One index of the parallel arrays EqpNum, EqpClass, Clients and Trigs[].Counter, with the bus bit of
      the slot's configuration in the hardware. A set of clients is a mask of client bits. */
  datatype Slot = Slot(eqpNum: nat, kind: Kind, clients: set<nat>, counter: nat, bus: bool) {
    predicate Is(num: nat, k: Kind) {
      eqpNum == num && kind == k
    }

    /** Free slots have the class value zero and no clients; the bus bit is set exactly when there are some. */
    predicate Valid() {
      && (eqpNum == 0 <==> kind == Hard) && (eqpNum == 0 ==> clients == {}) && (bus <==> clients != {})
      && counter < COUNTERS && (kind == Ctim ==> counter == 0)
    }
  }

  /** A module's table, its direct connections and its InterruptEnable. */
  datatype Mod = Mod(slots: seq<Slot>, hard: seq<set<nat>>, enable: set<nat>) {
    ghost predicate Valid() {
      |slots| == RAM && |hard| == SOURCES && forall i :: 0 <= i < RAM ==> slots[i].Valid()
    }
  }

  /** `CtrDrvrPtimBinding`. */
  datatype Obj = Obj(eqpNum: nat, mod: nat, counter: nat, size: nat, start: nat)

  datatype Area = Area(mods: seq<Mod>, objs: seq<Obj>)

  datatype Code = Ok | Busy | NoMemory | NoDevice | Invalid

  // ----- first fit -----

  predicate RunAt(slots: seq<Slot>, s: nat, n: nat) {
    s + n <= |slots| && forall k :: s <= k < s + n ==> slots[k].eqpNum == 0
  }

  datatype Place = Nowhere | At(start: nat)

  /** The least start, from `from` on, of a run of n free slots. */
  function Search(slots: seq<Slot>, n: nat, from: nat): (r: Place)
    ensures r.At? ==> from <= r.start && RunAt(slots, r.start, n) && forall s: nat :: from <= s < r.start ==> !RunAt(slots, s, n)
    ensures r.Nowhere? ==> forall s: nat :: from <= s ==> !RunAt(slots, s, n)
    decreases |slots| - from
  {
    if from + n > |slots| then Nowhere
    else if RunAt(slots, from, n) then At(from)
    else if from == |slots| then Nowhere
    else Search(slots, n, from + 1)
  }

  /** A request for no slots is met by the first free one. */
  function Wanted(size: nat): nat {
    if size == 0 then 1 else size
  }

  function Taken(slots: seq<Slot>, o: Obj, start: nat): (r: seq<Slot>)
    ensures |r| == |slots|
  {
    seq(|slots|, k requires 0 <= k < |slots| =>
      if start <= k < start + o.size then slots[k].(eqpNum := o.eqpNum, kind := Ptim, counter := o.counter) else slots[k])
  }

  predicate Known(objs: seq<Obj>, num: nat) {
    exists i :: 0 <= i < |objs| && objs[i].eqpNum == num
  }

  /** CREATE_PTIM_OBJECT. */
  function Create(a: Area, o: Obj): (Area, Code) {
    if Known(a.objs, o.eqpNum) then (a, Busy)
    else if |a.objs| >= OBJECTS then (a, NoMemory)
    else if o.mod >= |a.mods| then (a, Invalid)
    else
      var m := a.mods[o.mod];
      match Search(m.slots, Wanted(o.size), 0)
      case Nowhere => (a, Invalid)
      case At(start) =>
        (Area(a.mods[o.mod := m.(slots := Taken(m.slots, o, start))], a.objs + [o.(start := start)]), Ok)
  }

  // ----- destroy -----

  function Cleared(slots: seq<Slot>, num: nat): (r: seq<Slot>)
    ensures |r| == |slots|
  {
    seq(|slots|, k requires 0 <= k < |slots| =>
      if slots[k].Is(num, Ptim) then slots[k].(eqpNum := 0, kind := Hard, counter := 0, bus := false) else slots[k])
  }

  /** The last object takes the place of the first with that number. */
  function Dropped(objs: seq<Obj>, num: nat, from: nat): seq<Obj>
    decreases |objs| - from
  {
    if from >= |objs| then objs
    else if objs[from].eqpNum == num then objs[from := objs[|objs| - 1]][..|objs| - 1]
    else Dropped(objs, num, from + 1)
  }

  predicate Present(slots: seq<Slot>, num: nat) {
    exists k :: 0 <= k < |slots| && slots[k].Is(num, Ptim)
  }

  predicate InUse(slots: seq<Slot>, num: nat) {
    exists k :: 0 <= k < |slots| && slots[k].Is(num, Ptim) && slots[k].clients != {}
  }

  /** DESTROY_PTIM_OBJECT. */
  function Destroy(a: Area, num: nat, mod: nat): (Area, Code) {
    if mod >= |a.mods| then (a, Invalid)
    else
      var m := a.mods[mod];
      if InUse(m.slots, num) then (a, Busy)
      else if !Present(m.slots, num) then (a, Invalid)
      else (Area(a.mods[mod := m.(slots := Cleared(m.slots, num))], Dropped(a.objs, num, 0)), Ok)
  }

  // ----- who owns what -----

  predicate Covers(o: Obj, mod: nat, k: nat) {
    o.mod == mod && o.start <= k < o.start + o.size
  }

  predicate ObjValid(o: Obj, mods: nat) {
    o.eqpNum != 0 && o.size >= 1 && o.start + o.size <= RAM && o.mod < mods
  }

  ghost predicate Owned(a: Area) {
    && (forall i :: 0 <= i < |a.objs| ==> ObjValid(a.objs[i], |a.mods|))
    && (forall i, j :: 0 <= i < j < |a.objs| ==> a.objs[i].eqpNum != a.objs[j].eqpNum)
    && (forall i, m, k :: 0 <= i < |a.objs| && 0 <= m < |a.mods| && 0 <= k < |a.mods[m].slots| && Covers(a.objs[i], m, k) ==>
          a.mods[m].slots[k].Is(a.objs[i].eqpNum, Ptim) && a.mods[m].slots[k].counter == a.objs[i].counter)
    && (forall m, k :: 0 <= m < |a.mods| && 0 <= k < |a.mods[m].slots| && a.mods[m].slots[k].kind == Ptim ==>
          exists i :: 0 <= i < |a.objs| && Covers(a.objs[i], m, k))
  }

  ghost predicate ModsValid(a: Area) {
    forall m :: 0 <= m < |a.mods| ==> a.mods[m].Valid()
  }

  /** Every table is well formed, and the PTIM slots are exactly the ranges of the registered objects. */
  ghost predicate Valid(a: Area)
  {
    ModsValid(a) && Owned(a)
  }

  /** What a caller may ask for. */
  predicate Proper(o: Obj) {
    o.eqpNum != 0 && o.size >= 1 && o.counter < COUNTERS
  }

  lemma TakenValid(m: Mod, o: Obj, start: nat)
    requires m.Valid() && Proper(o) && RunAt(m.slots, start, o.size)
    ensures m.(slots := Taken(m.slots, o, start)).Valid()
  {
  }

  lemma CreateValid(a: Area, o: Obj)
    requires Valid(a) && Proper(o)
    ensures Valid(Create(a, o).0)
  {
    hide Slot.Valid;
    var (b, code) := Create(a, o);
    if code == Ok {
      var start := Search(a.mods[o.mod].slots, Wanted(o.size), 0).start;
      TakenValid(a.mods[o.mod], o, start);
      TakenOwned(a, o, start);
    }
  }

  lemma TakenOwned(a: Area, o: Obj, start: nat)
    requires Valid(a) && Proper(o) && o.mod < |a.mods| && RunAt(a.mods[o.mod].slots, start, o.size)
    requires !Known(a.objs, o.eqpNum)
    ensures var m := a.mods[o.mod];
            Owned(Area(a.mods[o.mod := m.(slots := Taken(m.slots, o, start))], a.objs + [o.(start := start)]))
  {
    var m := a.mods[o.mod];
    var p := o.(start := start);
    var b := Area(a.mods[o.mod := m.(slots := Taken(m.slots, o, start))], a.objs + [p]);
    forall n, k | 0 <= n < |b.mods| && 0 <= k < |b.mods[n].slots| && b.mods[n].slots[k].kind == Ptim
      ensures exists i :: 0 <= i < |b.objs| && Covers(b.objs[i], n, k)
    {
      if n == o.mod && start <= k < start + o.size {
        assert Covers(b.objs[|a.objs|], n, k);
      } else {
        assert a.mods[n].slots[k].kind == Ptim;
        var i :| 0 <= i < |a.objs| && Covers(a.objs[i], n, k);
        assert b.objs[i] == a.objs[i];
      }
    }
  }

  /** A search succeeds exactly when there is a run of free slots, and takes the least start. */
  lemma CreateLaw(a: Area, o: Obj)
    requires Valid(a) && Proper(o)
    ensures var (b, code) := Create(a, o);
            && (code == Busy <==> exists i :: 0 <= i < |a.objs| && a.objs[i].eqpNum == o.eqpNum)
            && (code == NoMemory <==> !Known(a.objs, o.eqpNum) && |a.objs| >= OBJECTS)
            && (code == Ok <==>
                  && !Known(a.objs, o.eqpNum) && |a.objs| < OBJECTS && o.mod < |a.mods|
                  && exists s: nat :: RunAt(a.mods[o.mod].slots, s, o.size))
            && (code == Ok ==>
                  var start := b.objs[|b.objs| - 1].start;
                  && b.objs == a.objs + [o.(start := start)]
                  && RunAt(a.mods[o.mod].slots, start, o.size)
                  && (forall s: nat :: s < start ==> !RunAt(a.mods[o.mod].slots, s, o.size))
                  && FilledAs(a, b, o, start))
            && (code != Ok ==> b == a)
  {
  }

  /** The slots of the object have its number, class and counter, and nothing else changed. */
  ghost predicate FilledAs(a: Area, b: Area, o: Obj, start: nat)
    requires o.mod < |a.mods|
  {
    var m, r := a.mods[o.mod], if o.mod < |b.mods| then b.mods[o.mod] else a.mods[o.mod];
    && b.mods == a.mods[o.mod := r] && r.hard == m.hard && r.enable == m.enable && |r.slots| == |m.slots|
    && start + o.size <= |r.slots|
    && (forall k :: start <= k < start + o.size ==>
          m.slots[k].eqpNum == 0 && r.slots[k].eqpNum == o.eqpNum && r.slots[k].kind == Ptim && r.slots[k].counter == o.counter && r.slots[k].clients == {})
    && (forall k :: 0 <= k < |r.slots| && !(start <= k < start + o.size) ==> r.slots[k] == m.slots[k])
  }

  /** Free slots anywhere are enough, the last of the table included. */
  lemma RoomIsFound(a: Area, o: Obj, s: nat)
    requires Valid(a) && Proper(o) && !Known(a.objs, o.eqpNum) && |a.objs| < OBJECTS && o.mod < |a.mods|
    requires s + o.size <= RAM && forall k :: s <= k < s + o.size ==> a.mods[o.mod].slots[k].eqpNum == 0
    ensures var (b, code) := Create(a, o);
            code == Ok && b.objs != [] && b.objs[|b.objs| - 1].start <= s
  {
    assert RunAt(a.mods[o.mod].slots, s, o.size);
  }

  lemma NoneTaken(slots: seq<Slot>, o: Obj, start: nat)
    requires o.size == 0
    ensures Taken(slots, o, start) == slots
  {
  }

  /** An object of no slots is created if and only if some slot is free, and takes none. */
  lemma NoSlotsAsked(a: Area, o: Obj)
    requires Valid(a) && o.size == 0 && !Known(a.objs, o.eqpNum) && |a.objs| < OBJECTS && o.mod < |a.mods|
    ensures var (b, code) := Create(a, o);
            && (code == Ok <==> exists k :: 0 <= k < RAM && a.mods[o.mod].slots[k].eqpNum == 0)
            && b.mods == a.mods
  {
    hide Search, Taken;
    var slots := a.mods[o.mod].slots;
    if k :| 0 <= k < RAM && slots[k].eqpNum == 0 {
      assert RunAt(slots, k, 1);
    }
    var r := Search(slots, 1, 0);
    if r.At? {
      NoneTaken(slots, o, r.start);
      assert slots[r.start].eqpNum == 0;
    }
  }

  predicate Own(a: Area, num: nat, mod: nat, k: nat) {
    mod < |a.mods| && k < |a.mods[mod].slots| && a.mods[mod].slots[k].eqpNum == num && a.mods[mod].slots[k].kind == Ptim
  }

  /** An object is destroyed if and only if some slot is its own and none of them has a client; then just its
      slots are free, and just it is gone from the table. */
  lemma DestroyLaw(a: Area, num: nat, mod: nat)
    requires Valid(a)
    ensures var (b, code) := Destroy(a, num, mod);
            && (code == Busy <==> exists k: nat :: Own(a, num, mod, k) && a.mods[mod].slots[k].clients != {})
            && (code == Ok <==> code != Busy && exists k: nat :: Own(a, num, mod, k))
            && (code == Ok || code == Busy || code == Invalid) && (code != Ok ==> b == a)
            && (code == Ok ==>
                  && mod < |a.mods| == |b.mods| && b.mods == a.mods[mod := b.mods[mod]]
                  && b.mods[mod].hard == a.mods[mod].hard && b.mods[mod].enable == a.mods[mod].enable && |b.mods[mod].slots| == RAM
                  && (forall k: nat :: k < RAM ==>
                        b.mods[mod].slots[k] == if Own(a, num, mod, k) then Slot(0, Hard, {}, 0, false) else a.mods[mod].slots[k])
                  && (forall o :: o in b.objs <==> o in a.objs && o.eqpNum != num))
  {
    hide Dropped;
    DroppedIs(a.objs, num, 0);
    if mod < |a.mods| {
      UseAndPresence(a, num, mod);
    }
  }

  lemma UseAndPresence(a: Area, num: nat, mod: nat)
    requires mod < |a.mods|
    ensures InUse(a.mods[mod].slots, num) <==> exists k: nat :: Own(a, num, mod, k) && a.mods[mod].slots[k].clients != {}
    ensures Present(a.mods[mod].slots, num) <==> exists k: nat :: Own(a, num, mod, k)
  {
    var slots := a.mods[mod].slots;
    if InUse(slots, num) {
      var k :| 0 <= k < |slots| && slots[k].Is(num, Ptim) && slots[k].clients != {};
      assert Own(a, num, mod, k);
    }
    if Present(slots, num) {
      var k :| 0 <= k < |slots| && slots[k].Is(num, Ptim);
      assert Own(a, num, mod, k);
    }
    if k: nat :| Own(a, num, mod, k) {
      assert slots[k].Is(num, Ptim);
    }
    if k: nat :| Own(a, num, mod, k) && slots[k].clients != {} {
      assert slots[k].Is(num, Ptim);
    }
  }

  lemma ClearedValid(m: Mod, num: nat)
    requires m.Valid() && !InUse(m.slots, num) && num != 0
    ensures m.(slots := Cleared(m.slots, num)).Valid()
  {
  }

  lemma {:induction false} DroppedIs(objs: seq<Obj>, num: nat, from: nat)
    requires forall i, j :: 0 <= i < j < |objs| ==> objs[i].eqpNum != objs[j].eqpNum
    requires forall i :: 0 <= i < from && i < |objs| ==> objs[i].eqpNum != num
    ensures var r := Dropped(objs, num, from);
            && (forall i, j :: 0 <= i < j < |r| ==> r[i].eqpNum != r[j].eqpNum)
            && (forall o :: o in r <==> o in objs && o.eqpNum != num)
    decreases |objs| - from
  {
    if from < |objs| {
      if objs[from].eqpNum == num {
        var r := Dropped(objs, num, from);
        var last := |objs| - 1;
        assert |r| == last && forall i :: 0 <= i < last ==> r[i] == if i == from then objs[last] else objs[i];
        forall o | o in objs && o.eqpNum != num
          ensures o in r
        {
          var i :| 0 <= i < |objs| && objs[i] == o;
          assert if i == last then r[from] == o else r[i] == o;
        }
      } else {
        DroppedIs(objs, num, from + 1);
      }
    }
  }

  lemma DestroyValid(a: Area, num: nat, mod: nat)
    requires Valid(a)
    ensures Valid(Destroy(a, num, mod).0)
  {
    hide Slot.Valid;
    var (b, code) := Destroy(a, num, mod);
    if code == Ok {
      ZeroIsFree(a.mods[mod], num);
      ClearedValid(a.mods[mod], num);
      ClearedOwned(a, num, mod);
    }
  }

  lemma ZeroIsFree(m: Mod, num: nat)
    requires m.Valid() && Present(m.slots, num)
    ensures num != 0
  {
  }

  lemma ClearedOwned(a: Area, num: nat, mod: nat)
    requires Valid(a) && mod < |a.mods| && Present(a.mods[mod].slots, num)
    ensures var m := a.mods[mod];
            Owned(Area(a.mods[mod := m.(slots := Cleared(m.slots, num))], Dropped(a.objs, num, 0)))
  {
    hide Dropped, Slot.Valid;
    var m := a.mods[mod];
    var objs := Dropped(a.objs, num, 0);
    var b := Area(a.mods[mod := m.(slots := Cleared(m.slots, num))], objs);
    DroppedIs(a.objs, num, 0);
    forall i | 0 <= i < |objs|
      ensures objs[i] in a.objs && objs[i].eqpNum != num
    {
      assert objs[i] in objs;
    }
    forall n, k | 0 <= n < |b.mods| && 0 <= k < |b.mods[n].slots| && b.mods[n].slots[k].kind == Ptim
      ensures exists i :: 0 <= i < |b.objs| && Covers(b.objs[i], n, k)
    {
      assert a.mods[n].slots[k].kind == Ptim;
      var i: nat :| i < |a.objs| && Covers(a.objs[i], n, k);
      assert a.mods[n].slots[k].Is(a.objs[i].eqpNum, Ptim);
      OneModule(a, num, mod, i);
      assert a.objs[i] in objs;
    }
  }

  /** An object's slots are all in its own module. */
  lemma OneModule(a: Area, num: nat, mod: nat, i: nat)
    requires Valid(a) && mod < |a.mods| && Present(a.mods[mod].slots, num)
    requires i < |a.objs|
    ensures a.objs[i].eqpNum == num ==> a.objs[i].mod == mod
  {
    var k: nat :| k < RAM && a.mods[mod].slots[k].Is(num, Ptim);
    var j: nat :| j < |a.objs| && Covers(a.objs[j], mod, k);
    assert a.objs[j].eqpNum == num;
  }

  /** A slot belongs to PTIM objects iff it lies in exactly one registered object's range; so the ranges of
      two objects of one module have no slot in common. */
  lemma ExactlyOneOwner(a: Area, mod: nat, k: nat)
    requires Valid(a) && mod < |a.mods| && k < RAM
    ensures a.mods[mod].slots[k].kind == Ptim <==> exists i :: 0 <= i < |a.objs| && Covers(a.objs[i], mod, k)
    ensures forall i, j :: 0 <= i < |a.objs| && 0 <= j < |a.objs| && Covers(a.objs[i], mod, k) && Covers(a.objs[j], mod, k) ==> i == j
  {
    forall i, j | 0 <= i < |a.objs| && 0 <= j < |a.objs| && Covers(a.objs[i], mod, k) && Covers(a.objs[j], mod, k)
      ensures i == j
    {
      assert a.mods[mod].slots[k].Is(a.objs[i].eqpNum, Ptim) && a.mods[mod].slots[k].Is(a.objs[j].eqpNum, Ptim);
    }
  }
}
