/** The trigger-table code as the source writes it, in place on the module and client contexts. */
module TimingOps {
  import opened Timing
  import opened Connections

  class ModuleContext {
    const slots: array<Slot>
    const hard: array<set<nat>>
    var enable: set<nat>
    const stray: nat -> set<nat>  // memory past the end of HardClients

    ghost predicate Shaped() {
      slots.Length == RAM && hard.Length == SOURCES
    }

    ghost function View(): Mod
      reads this, slots, hard
    {
      Mod(slots[..], hard[..], enable)
    }

    ghost predicate Valid()
      reads this, slots, hard
    {
      Shaped() && View().Valid()
    }

    constructor (stray: nat -> set<nat>)
      ensures Valid() && fresh(slots) && fresh(hard) && this.stray == stray
    {
      slots := new Slot[RAM](_ => Slot(0, Hard, {}, 0, false));
      hard := new set<nat>[SOURCES](_ => {});
      enable := {};
      this.stray := stray;
    }

    method DisableInterrupts(t: nat, kind: Kind, c: nat)
      requires Shaped() && if kind == Hard then t < SOURCES else t < RAM && slots[t].counter < COUNTERS
      modifies this`enable
      ensures View() == Disable(old(View()), t, kind, c, stray)
    {
      var counted, cntr := true, t;
      if kind != Hard {
        cntr := slots[t].counter;
      } else if t > COUNTERS {
        counted := false;
      }
      if counted {
        if hard[cntr] - {c} != {} {
          return;
        }
        for i := 0 to RAM
          invariant forall k :: 0 <= k < i ==> !UsedAt(View(), k, cntr, c)
        {
          if slots[i].counter == cntr && slots[i].clients - {c} != {} {
            assert UsedAt(View(), i, cntr, c);
            return;
          }
        }
      }
      var there := if t < SOURCES then hard[t] else stray(t);
      if there - {c} == {} {
        enable := enable - {cntr};
      }
    }

    method DisConnectTrigger(t: nat, kind: Kind, c: nat)
      requires Shaped() && t < RAM && kind != Hard && slots[t].counter < COUNTERS
      modifies this`enable, slots
      ensures View() == DisconnectSlot(old(View()), t, kind, c, stray)
    {
      hide UsedByOther;
      if c in slots[t].clients {
        slots[t] := slots[t].(clients := slots[t].clients - {c});
        if slots[t].clients == {} {
          DisableInterrupts(t, kind, c);
          if slots[t].kind == Ctim {
            slots[t] := slots[t].(eqpNum := 0, kind := Hard, bus := false);
          } else {
            slots[t] := slots[t].(bus := false);
          }
        }
      }
    }

    method DisConnectSource(t: nat, c: nat)
      requires Shaped() && t < SOURCES
      modifies this`enable, hard
      ensures View() == DisconnectHard(old(View()), t, c, stray)
    {
      hide UsedByOther;
      if hard[t] != {} {
        hard[t] := hard[t] - {c};
        if hard[t] == {} {
          DisableInterrupts(t, Hard, c);
        }
      }
    }

    method DisConnectSources(c: nat)
      requires Valid()
      modifies this`enable, hard
      ensures Valid() && View() == DisconnectHards(old(View()), c, stray, SOURCES)
    {
      hide Slot.Valid, DisconnectHard;
      for i := 0 to SOURCES
        invariant Valid() && View() == DisconnectHards(old(View()), c, stray, i)
      {
        DisconnectHardLaw(View(), i, c, stray);
        DisConnectSource(i, c);
      }
    }

    method DisConnect(num: nat, kind: Kind, c: nat)
      requires Valid()
      modifies this`enable, slots, hard
      ensures Valid() && View() == Disconnect(old(View()), num, kind, c, stray)
    {
      hide DisconnectSlot;
      if kind != Hard {
        for i := 0 to RAM
          invariant Valid() && View() == DisconnectObj(old(View()), num, kind, c, stray, i)
        {
          if slots[i].eqpNum == num && slots[i].kind == kind {
            DisconnectSlotLaw(View(), i, kind, c, stray);
            assert View().slots[i].Valid();
            DisConnectTrigger(i, kind, c);
          }
        }
      } else {
        DisConnectSources(c);
      }
    }

    method DisConnectAll(c: nat)
      requires Valid()
      modifies this`enable, slots, hard
      ensures Valid() && View() == DisconnectAll(old(View()), c, stray)
    {
      hide DisconnectSlot, DisconnectHards;
      for i := 0 to RAM
        invariant Valid() && View() == DisconnectSlots(old(View()), c, stray, i)
      {
        if slots[i].eqpNum != 0 {
          assert View().slots[i].Valid();
          DisconnectSlotLaw(View(), i, slots[i].kind, c, stray);
          DisConnectTrigger(i, slots[i].kind, c);
        }
      }
      DisConnectSources(c);
    }

    method ConnectToPtim(num: nat, c: nat) returns (code: Code)
      requires Valid()
      modifies this`enable, slots
      ensures Valid() && (View(), code) == ConnectPtim(old(View()), num, c)
    {
      hide CountersOf, Slot.Valid, Spares, SamePtim;
      var count := 0;
      ghost var m := View();
      NoCounters(m.slots[..0], num);
      for i := 0 to RAM
        invariant count == 0 <==> forall k :: 0 <= k < i ==> !m.slots[k].Is(num, Ptim)
        invariant forall k :: 0 <= k < RAM ==>
                    slots[k] == if k < i && m.slots[k].Is(num, Ptim) then Joined(m.slots[k], c) else m.slots[k]
        invariant enable == m.enable + CountersOf(m.slots[..i], num)
      {
        assert CountersOf(m.slots[..i + 1], num)
               == CountersOf(m.slots[..i], num) + if m.slots[i].Is(num, Ptim) then {m.slots[i].counter} else {} by {
          OneMoreCounter(m.slots, num, i);
        }
        if slots[i].eqpNum == num && slots[i].kind == Ptim {
          count := count + 1;
          slots[i] := slots[i].(clients := slots[i].clients + {c}, bus := true);
          enable := enable + {slots[i].counter};
        }
      }
      assert m.slots[..RAM] == m.slots;
      assert slots[..] == if count > 0 then JoinAll(m.slots, num, c) else m.slots;
      code := if count > 0 then Ok else NoDevice;
      if count == 0 {
        NoCounters(m.slots, num);
        assert View() == m;
      }
      ConnectPtimLaw(m, num, c);
    }

    method ConnectToCtim(num: nat, known: bool, c: nat) returns (code: Code)
      requires Valid() && num != 0
      modifies this`enable, slots
      ensures Valid() && (View(), code) == ConnectCtim(old(View()), num, known, c)
    {
      hide Slot.Valid;
      ghost var m := View();
      ConnectCtimLaw(m, num, known, c);
      var i := 0;
      while i < RAM && !(slots[i].eqpNum == num && slots[i].kind == Ctim)
        invariant i <= RAM && forall k :: 0 <= k < i ==> !m.slots[k].Is(num, Ctim)
      {
        i := i + 1;
      }
      if i < RAM {
        assert m.slots[i].Is(num, Ctim);
        slots[i] := slots[i].(clients := slots[i].clients + {c}, bus := true);
        enable := enable + {0};
        assert View().slots == m.slots[i := Joined(m.slots[i], c)];
        return Ok;
      }
      if !known {
        return NoDevice;
      }
      i := 0;
      while i < RAM && slots[i].eqpNum != 0
        invariant i <= RAM && forall k :: 0 <= k < i ==> m.slots[k].eqpNum != 0
      {
        i := i + 1;
      }
      if i == RAM {
        return NoMemory;
      }
      slots[i] := slots[i].(eqpNum := num, kind := Ctim, counter := 0, bus := true);
      slots[i] := slots[i].(clients := slots[i].clients + {c});
      enable := enable + {0};
      assert View().slots == m.slots[i := Slot(num, Ctim, m.slots[i].clients + {c}, 0, true)];
      code := Ok;
    }

    method ConnectToHard(sources: set<nat>, c: nat) returns (code: Code)
      requires Valid()
      modifies this`enable, hard
      ensures Valid() && (View(), code) == ConnectHard(old(View()), sources, c)
    {
      hide Slot.Valid, Spares, SamePtim;
      ghost var m := View();
      var count := 0;
      for i := 0 to SOURCES
        invariant enable == m.enable + Below(sources, i)
        invariant count == 0 <==> forall h: nat :: h < i ==> h !in sources
        invariant forall h :: 0 <= h < SOURCES ==> hard[h] == if h < i && h in sources then m.hard[h] + {c} else m.hard[h]
      {
        if i in sources {
          count := count + 1;
          enable := enable + {i};
          hard[i] := hard[i] + {c};
        }
      }
      code := if count > 0 then Ok else NoDevice;
      Chosen(m, sources);
      if count == 0 {
        assert View() == m;
      } else {
        assert View() == ConnectHard(m, sources, c).0;
      }
      ConnectHardLaw(m, sources, c);
    }

    /** The search of CREATE_PTIM_OBJECT for a run of free slots. */
    method FindRun(n: nat) returns (found: bool, start: nat)
      requires Shaped()
      ensures Search(slots[..], Wanted(n), 0) == if found then At(start) else Nowhere
    {
      found, start := false, 0;
      var size, i := 0, 0;
      ghost var w := Wanted(n);
      while i < RAM && !found
        invariant i <= RAM && (size > 0 ==> start + size == i) && size <= i
        invariant forall k :: i - size <= k < i ==> slots[k].eqpNum == 0
        invariant size < i ==> slots[i - size - 1].eqpNum != 0
        invariant !found ==> size < w
        invariant found ==> size == w && start + w == i
        invariant forall s: nat :: s + w <= i && !(found && s == start) ==> !RunAt(slots[..], s, w)
        decreases RAM - i
      {
        if slots[i].eqpNum == 0 {
          if size == 0 {
            start := i;
          }
          size := size + 1;
          if size >= n {
            found := true;
          }
        } else {
          size := 0;
        }
        i := i + 1;
      }
      if found {
        assert RunAt(slots[..], start, w);
      }
    }

    method Claim(o: Obj, start: nat)
      requires Shaped() && start + o.size <= RAM
      modifies slots
      ensures slots[..] == Taken(old(slots[..]), o, start)
    {
      for i := start to start + o.size
        invariant forall k :: 0 <= k < RAM ==>
                    slots[k] == if start <= k < i then old(slots[k]).(eqpNum := o.eqpNum, kind := Ptim, counter := o.counter)
                                else old(slots[k])
      {
        slots[i] := slots[i].(eqpNum := o.eqpNum, kind := Ptim, counter := o.counter);
      }
    }

    /** The slot half of DESTROY_PTIM_OBJECT. */
    method Release(num: nat) returns (code: Code)
      requires Shaped()
      modifies slots
      ensures code == if InUse(old(slots[..]), num) then Busy else if Present(old(slots[..]), num) then Ok else Invalid
      ensures slots[..] == if code == Ok then Cleared(old(slots[..]), num) else old(slots[..])
    {
      var found := false;
      for i := 0 to RAM
        invariant found <==> exists k :: 0 <= k < i && slots[k].Is(num, Ptim)
        invariant forall k :: 0 <= k < i && slots[k].Is(num, Ptim) ==> slots[k].clients == {}
      {
        if slots[i].eqpNum == num && slots[i].kind == Ptim {
          assert slots[i].Is(num, Ptim);
          if slots[i].clients != {} {
            assert slots[..][i].Is(num, Ptim);
            return Busy;
          }
          found := true;
        }
      }
      if !found {
        return Invalid;
      }
      for i := 0 to RAM
        invariant forall k :: 0 <= k < RAM ==>
                    slots[k] == if k < i && old(slots[k]).Is(num, Ptim)
                                then old(slots[k]).(eqpNum := 0, kind := Hard, counter := 0, bus := false) else old(slots[k])
      {
        if slots[i].eqpNum == num && slots[i].kind == Ptim {
          slots[i] := slots[i].(eqpNum := 0, kind := Hard, counter := 0, bus := false);
        }
      }
      code := Ok;
    }
  }

  function Below(sources: set<nat>, n: nat): set<nat> {
    set h | h in sources && h < n
  }

  lemma Chosen(m: Mod, sources: set<nat>)
    requires |m.hard| == SOURCES
    ensures Below(sources, SOURCES) == (set h | h in sources && h < |m.hard|)
    ensures Below(sources, SOURCES) == {} <==> forall h: nat :: h < SOURCES ==> h !in sources
  {
    if Below(sources, SOURCES) == {} {
      forall h: nat | h < SOURCES
        ensures h !in sources
      {
        assert h !in Below(sources, SOURCES);
      }
    }
  }

  lemma NoCounters(slots: seq<Slot>, num: nat)
    requires !Present(slots, num)
    ensures CountersOf(slots, num) == {}
  {
  }

  lemma OneMoreCounter(slots: seq<Slot>, num: nat, i: nat)
    requires i < |slots|
    ensures CountersOf(slots[..i + 1], num) == CountersOf(slots[..i], num) + if slots[i].Is(num, Ptim) then {slots[i].counter} else {}
  {
    var a, b := slots[..i], slots[..i + 1];
    assert forall k :: 0 <= k < i ==> a[k] == b[k];
    assert b[i] == slots[i];
  }

  /** `Wa`: the modules and the registered PTIM objects. */
  class WorkingArea {
    const mods: seq<ModuleContext>
    const objects: array<Obj>
    var size: nat

    ghost predicate Shaped()
      reads this
    {
      && objects.Length == OBJECTS && size <= OBJECTS && (forall m <- mods :: m.Shaped())
      && forall i, j :: 0 <= i < j < |mods| ==> mods[i].slots != mods[j].slots
    }

    ghost function View(): Area
      requires Shaped()
      reads this, objects, mods, set m <- mods :: m.slots, set m <- mods :: m.hard
    {
      Area(seq(|mods|, i requires 0 <= i < |mods| reads mods, set m <- mods :: m.slots, set m <- mods :: m.hard => mods[i].View()),
           objects[..size])
    }

    method IsKnown(num: nat) returns (known: bool)
      requires Shaped()
      ensures known == Known(View().objs, num)
    {
      known := false;
      for i := 0 to size
        invariant !known && forall k :: 0 <= k < i ==> objects[k].eqpNum != num
      {
        if objects[i].eqpNum == num {
          assert View().objs[i].eqpNum == num;
          return true;
        }
      }
    }

    /** CREATE_PTIM_OBJECT. */
    method CreatePtim(o: Obj) returns (code: Code)
      requires Shaped()
      modifies this`size, objects, set m <- mods :: m.slots
      ensures Shaped() && (View(), code) == Create(old(View()), o)
    {
      ghost var a := View();
      var known := IsKnown(o.eqpNum);
      if known {
        return Busy;
      }
      if size >= OBJECTS {
        return NoMemory;
      }
      if o.mod >= |mods| {
        return Invalid;
      }
      var found, start := mods[o.mod].FindRun(o.size);
      assert a.mods[o.mod].slots == mods[o.mod].slots[..];
      if !found {
        return Invalid;
      }
      mods[o.mod].Claim(o, start);
      objects[size] := o.(start := start);
      size := size + 1;
      assert View().mods == a.mods[o.mod := a.mods[o.mod].(slots := Taken(a.mods[o.mod].slots, o, start))];
      assert View().objs == a.objs + [o.(start := start)];
      code := Ok;
    }

    /** DESTROY_PTIM_OBJECT. */
    method DestroyPtim(num: nat, mod: nat) returns (code: Code)
      requires Shaped()
      modifies this`size, objects, set m <- mods :: m.slots
      ensures Shaped() && (View(), code) == Destroy(old(View()), num, mod)
    {
      ghost var a := View();
      if mod >= |mods| {
        return Invalid;
      }
      code := mods[mod].Release(num);
      if code == Ok {
        DropObject(num);
        assert View().mods == a.mods[mod := a.mods[mod].(slots := Cleared(a.mods[mod].slots, num))];
      } else {
        assert View().mods == a.mods;
      }
    }

    method DropObject(num: nat)
      requires Shaped()
      modifies this`size, objects
      ensures Shaped() && objects[..size] == Dropped(old(objects[..size]), num, 0)
    {
      ghost var objs := objects[..size];
      var i := 0;
      while i < size && objects[i].eqpNum != num
        invariant i <= size && Dropped(objs, num, i) == Dropped(objs, num, 0)
      {
        i := i + 1;
      }
      if i < size {
        objects[i] := objects[size - 1];
        size := size - 1;
        assert objects[..size] == objs[i := objs[|objs| - 1]][..|objs| - 1];
      }
    }
  }
}
