/** Clients connecting to and disconnecting from the slots and interrupt sources of a module
    (ctr/driver/ctrdrvr-pci.c). */
module Connections {
  import opened Timing

  /** A mask without the client's own bit. */
  function Others(s: set<nat>, c: nat): set<nat> {
    s - {c}
  }

  predicate UsedAt(m: Mod, i: nat, h: nat, c: nat)
    requires i < |m.slots|
  {
    m.slots[i].counter == h && Others(m.slots[i].clients, c) != {}
  }

  /** Some other client uses source h, directly or through a trigger on that counter. */
  predicate UsedByOther(m: Mod, h: nat, c: nat) {
    (h < |m.hard| && Others(m.hard[h], c) != {}) || exists i :: 0 <= i < |m.slots| && UsedAt(m, i, h, c)
  }

  /** `HardClients[t]`, also where t is past its end: then it is whatever lies there. */
  function HardAt(m: Mod, t: nat, stray: nat -> set<nat>): set<nat> {
    if t < |m.hard| then m.hard[t] else stray(t)
  }

  function Source(m: Mod, t: nat, kind: Kind): nat
    requires kind != Hard ==> t < |m.slots|
  {
    if kind != Hard then m.slots[t].counter else t
  }

  /** Whether `DisableInterrupts` leaves the source enabled. */
  predicate Stays(m: Mod, t: nat, kind: Kind, c: nat, stray: nat -> set<nat>)
    requires kind != Hard ==> t < |m.slots|
  {
    || ((kind != Hard || t <= COUNTERS) && UsedByOther(m, Source(m, t, kind), c))
    || Others(HardAt(m, t, stray), c) != {}
  }

  function Disable(m: Mod, t: nat, kind: Kind, c: nat, stray: nat -> set<nat>): Mod
    requires kind != Hard ==> t < |m.slots|
  {
    if Stays(m, t, kind, c, stray) then m else m.(enable := m.enable - {Source(m, t, kind)})
  }

  function WithSlot(m: Mod, t: nat, s: Slot): Mod
    requires t < |m.slots|
  {
    m.(slots := m.slots[t := s])
  }

  /** `DisConnectOne` from a trigger; a CTIM slot is freed with its last client. */
  function DisconnectSlot(m: Mod, t: nat, kind: Kind, c: nat, stray: nat -> set<nat>): (r: Mod)
    requires t < |m.slots| && kind != Hard
    ensures |r.slots| == |m.slots| && |r.hard| == |m.hard|
  {
    var s := m.slots[t];
    if c !in s.clients then m
    else
      var left := s.(clients := Others(s.clients, c));
      if left.clients != {} then WithSlot(m, t, left)
      else
        WithSlot(Disable(WithSlot(m, t, left), t, kind, c, stray), t,
                 if s.kind == Ctim then left.(eqpNum := 0, kind := Hard, bus := false) else left.(bus := false))
  }

  /** `DisConnectOne` from a source. */
  function DisconnectHard(m: Mod, t: nat, c: nat, stray: nat -> set<nat>): (r: Mod)
    requires t < |m.hard|
    ensures |r.slots| == |m.slots| && |r.hard| == |m.hard|
  {
    var left := m.(hard := m.hard[t := Others(m.hard[t], c)]);
    if m.hard[t] == {} then m
    else if left.hard[t] == {} then Disable(left, t, Hard, c, stray)
    else left
  }

  /** The loop of `DisConnect` over the first n slots. */
  function DisconnectObj(m: Mod, num: nat, kind: Kind, c: nat, stray: nat -> set<nat>, n: nat): (r: Mod)
    requires n <= |m.slots| && kind != Hard
    ensures |r.slots| == |m.slots| && |r.hard| == |m.hard|
  {
    if n == 0 then m
    else
      var p := DisconnectObj(m, num, kind, c, stray, n - 1);
      if p.slots[n - 1].Is(num, kind) then DisconnectSlot(p, n - 1, kind, c, stray) else p
  }

  /** The loops of `DisConnectAll`. */
  function DisconnectSlots(m: Mod, c: nat, stray: nat -> set<nat>, n: nat): (r: Mod)
    requires n <= |m.slots|
    ensures |r.slots| == |m.slots| && |r.hard| == |m.hard|
  {
    if n == 0 then m
    else
      var p := DisconnectSlots(m, c, stray, n - 1);
      if p.slots[n - 1].eqpNum != 0 && p.slots[n - 1].kind != Hard then
        DisconnectSlot(p, n - 1, p.slots[n - 1].kind, c, stray)
      else p
  }

  function DisconnectHards(m: Mod, c: nat, stray: nat -> set<nat>, n: nat): (r: Mod)
    requires n <= |m.hard|
    ensures |r.slots| == |m.slots| && |r.hard| == |m.hard|
  {
    if n == 0 then m else DisconnectHard(DisconnectHards(m, c, stray, n - 1), n - 1, c, stray)
  }

  function Disconnect(m: Mod, num: nat, kind: Kind, c: nat, stray: nat -> set<nat>): (r: Mod)
    ensures |r.slots| == |m.slots| && |r.hard| == |m.hard|
  {
    if kind == Hard then DisconnectHards(m, c, stray, |m.hard|) else DisconnectObj(m, num, kind, c, stray, |m.slots|)
  }

  function DisconnectAll(m: Mod, c: nat, stray: nat -> set<nat>): (r: Mod)
    ensures |r.slots| == |m.slots| && |r.hard| == |m.hard|
  {
    DisconnectHards(DisconnectSlots(m, c, stray, |m.slots|), c, stray, |m.hard|)
  }

  // ----- connecting -----

  function Joined(s: Slot, c: nat): Slot {
    s.(clients := s.clients + {c}, bus := true)
  }

  function JoinAll(slots: seq<Slot>, num: nat, c: nat): (r: seq<Slot>)
    ensures |r| == |slots|
  {
    seq(|slots|, i requires 0 <= i < |slots| => if slots[i].Is(num, Ptim) then Joined(slots[i], c) else slots[i])
  }

  function CountersOf(slots: seq<Slot>, num: nat): set<nat> {
    set i | 0 <= i < |slots| && slots[i].Is(num, Ptim) :: slots[i].counter
  }

  /** Connect to every slot of a PTIM object. */
  function ConnectPtim(m: Mod, num: nat, c: nat): (Mod, Code) {
    if !Present(m.slots, num) then (m, NoDevice)
    else (Mod(JoinAll(m.slots, num, c), m.hard, m.enable + CountersOf(m.slots, num)), Ok)
  }

  /** The first slot of a CTIM instance, or the first free one when num is 0 and kind is Hard. */
  function First(slots: seq<Slot>, num: nat, kind: Kind, from: nat): (r: Place)
    ensures r.At? ==> from <= r.start < |slots| && slots[r.start].Is(num, kind)
    ensures forall i :: from <= i < |slots| && slots[i].Is(num, kind) ==> r.At? && r.start <= i
    decreases |slots| - from
  {
    if from >= |slots| then Nowhere
    else if slots[from].Is(num, kind) then At(from)
    else First(slots, num, kind, from + 1)
  }

  function FirstFree(slots: seq<Slot>, from: nat): (r: Place)
    ensures r.At? ==> from <= r.start < |slots| && slots[r.start].eqpNum == 0
    ensures forall i :: from <= i < |slots| && slots[i].eqpNum == 0 ==> r.At? && r.start <= i
    decreases |slots| - from
  {
    if from >= |slots| then Nowhere
    else if slots[from].eqpNum == 0 then At(from)
    else FirstFree(slots, from + 1)
  }

  /** Connect to a CTIM instance, making one in the first free slot if the event is known. */
  function ConnectCtim(m: Mod, num: nat, known: bool, c: nat): (Mod, Code) {
    match First(m.slots, num, Ctim, 0)
    case At(i) => (Mod(m.slots[i := Joined(m.slots[i], c)], m.hard, m.enable + {0}), Ok)
    case Nowhere =>
      if !known then (m, NoDevice)
      else match FirstFree(m.slots, 0)
           case Nowhere => (m, NoMemory)
           case At(i) =>
             (Mod(m.slots[i := Slot(num, Ctim, m.slots[i].clients + {c}, 0, true)], m.hard, m.enable + {0}), Ok)
  }

  /** Connect directly to the sources of a mask. */
  function ConnectHard(m: Mod, sources: set<nat>, c: nat): (Mod, Code) {
    var chosen := set h | h in sources && h < |m.hard|;
    if chosen == {} then (m, NoDevice)
    else (Mod(m.slots, seq(|m.hard|, h requires 0 <= h < |m.hard| => if h in sources then m.hard[h] + {c} else m.hard[h]),
              m.enable + chosen), Ok)
  }

  // ----- what one client does leaves the others alone -----

  /** Going from m to r disturbed no client but c: the others' bits and the slots they are on are as they
      were, and no interrupt that another uses was disabled. */
  ghost predicate Spares(m: Mod, r: Mod, c: nat) {
    && |r.slots| == |m.slots| && |r.hard| == |m.hard|
    && (forall i :: 0 <= i < |m.slots| ==> SlotSpared(m.slots[i], r.slots[i], c))
    && (forall h :: 0 <= h < |m.hard| ==> Others(r.hard[h], c) == Others(m.hard[h], c))
    && (forall h :: h in m.enable && h !in r.enable ==> !UsedByOther(m, h, c))
  }

  predicate SlotSpared(s: Slot, t: Slot, c: nat) {
    && Others(t.clients, c) == Others(s.clients, c)
    && (Others(s.clients, c) != {} ==> t.eqpNum == s.eqpNum && t.kind == s.kind && t.counter == s.counter)
  }

  /** The same slots belong to the same PTIM objects, on the same counters. */
  ghost predicate SamePtim(m: Mod, r: Mod) {
    && |r.slots| == |m.slots|
    && forall i :: 0 <= i < |m.slots| ==>
         (r.slots[i].kind == Ptim <==> m.slots[i].kind == Ptim) && (r.slots[i].kind == Ptim ==> r.slots[i].eqpNum == m.slots[i].eqpNum && r.slots[i].counter == m.slots[i].counter)
  }

  lemma SparesSelf(m: Mod, c: nat)
    ensures Spares(m, m, c)
  {
  }

  lemma UseIsKept(m: Mod, r: Mod, h: nat, c: nat)
    requires Spares(m, r, c) && UsedByOther(m, h, c)
    ensures UsedByOther(r, h, c)
  {
    if !(h < |m.hard| && Others(m.hard[h], c) != {}) {
      var i :| 0 <= i < |m.slots| && UsedAt(m, i, h, c);
      assert SlotSpared(m.slots[i], r.slots[i], c);
      assert UsedAt(r, i, h, c);
    }
  }

  lemma SparesBack(m: Mod, r: Mod, c: nat)
    requires Spares(m, r, c) && r.enable == m.enable
    ensures Spares(r, m, c)
  {
    hide UsedByOther, Others;
    forall i | 0 <= i < |m.slots|
      ensures SlotSpared(r.slots[i], m.slots[i], c)
    {
      assert SlotSpared(m.slots[i], r.slots[i], c);
    }
  }

  lemma SameUse(m: Mod, r: Mod, h: nat, c: nat)
    requires Spares(m, r, c) && r.enable == m.enable
    ensures UsedByOther(m, h, c) <==> UsedByOther(r, h, c)
  {
    hide UsedByOther;
    SparesBack(m, r, c);
    if UsedByOther(m, h, c) {
      UseIsKept(m, r, h, c);
    } else if UsedByOther(r, h, c) {
      UseIsKept(r, m, h, c);
    }
  }

  lemma SparesTwice(m: Mod, r: Mod, t: Mod, c: nat)
    requires Spares(m, r, c) && Spares(r, t, c)
    ensures Spares(m, t, c)
  {
    forall h | h in m.enable && h !in t.enable
      ensures !UsedByOther(m, h, c)
    {
      if UsedByOther(m, h, c) {
        UseIsKept(m, r, h, c);
      }
    }
    forall i | 0 <= i < |m.slots|
      ensures SlotSpared(m.slots[i], t.slots[i], c)
    {
      assert SlotSpared(m.slots[i], r.slots[i], c) && SlotSpared(r.slots[i], t.slots[i], c);
    }
  }

  /** `DisableInterrupts` clears exactly one bit, and exactly when nobody else needs it; past the end of
      `HardClients` a stray value can keep it, never clear one that is needed. */
  lemma DisableLaw(m: Mod, t: nat, kind: Kind, c: nat, stray: nat -> set<nat>)
    requires m.Valid() && (if kind == Hard then t < SOURCES else t < RAM)
    ensures var r, h := Disable(m, t, kind, c, stray), Source(m, t, kind);
            && r == m.(enable := r.enable) && (r.enable == m.enable || r.enable == m.enable - {h})
            && (h in m.enable ==> (h !in r.enable <==> !UsedByOther(m, h, c) && Others(HardAt(m, t, stray), c) == {}))
            && Spares(m, r, c)
  {
    var h := Source(m, t, kind);
    if kind == Hard && t > COUNTERS {
      NoTriggerPast(m, t, c);
    }
  }

  /** No trigger is on a source that is not a counter. */
  lemma NoTriggerPast(m: Mod, h: nat, c: nat)
    requires m.Valid() && COUNTERS <= h < SOURCES
    ensures UsedByOther(m, h, c) <==> Others(m.hard[h], c) != {}
  {
    forall i | 0 <= i < |m.slots|
      ensures !UsedAt(m, i, h, c)
    {
      assert m.slots[i].Valid();
    }
  }

  lemma SlotLeft(m: Mod, t: nat, c: nat)
    requires m.Valid() && t < RAM
    ensures var left := WithSlot(m, t, m.slots[t].(clients := Others(m.slots[t].clients, c)));
            Spares(m, left, c) && Spares(left, m, c)
  {
  }

  lemma DisconnectSlotLaw(m: Mod, t: nat, kind: Kind, c: nat, stray: nat -> set<nat>)
    requires m.Valid() && t < RAM && kind != Hard
    ensures var r := DisconnectSlot(m, t, kind, c, stray);
            && r.Valid() && Spares(m, r, c) && SamePtim(m, r) && c !in r.slots[t].clients
            && r.hard == m.hard && (forall i :: 0 <= i < RAM && i != t ==> r.slots[i] == m.slots[i])
            && r.slots[t].counter == m.slots[t].counter
            && (r.slots[t].Is(m.slots[t].eqpNum, m.slots[t].kind) || (m.slots[t].kind == Ctim && r.slots[t].eqpNum == 0))
            && r.slots[t].clients == m.slots[t].clients - {c}
            && (m.slots[t].kind == Ctim && m.slots[t].clients == {c} <==> m.slots[t].eqpNum != 0 && r.slots[t].eqpNum == 0)
            && (forall h :: h != m.slots[t].counter ==> (h in r.enable <==> h in m.enable))
            && (m.slots[t].counter in r.enable <==>
                  m.slots[t].counter in m.enable
                  && !(m.slots[t].clients == {c} && !UsedByOther(m, m.slots[t].counter, c) && Others(HardAt(m, t, stray), c) == {}))
  {
    hide UsedByOther;
    var s := m.slots[t];
    assert s.Valid();
    if c in s.clients {
      var left := WithSlot(m, t, s.(clients := Others(s.clients, c)));
      SlotLeft(m, t, c);
      if left.slots[t].clients == {} {
        var d := Disable(left, t, kind, c, stray);
        DisableSpares(left, t, kind, c, stray);
        SameUse(m, left, m.slots[t].counter, c);
        SparesTwice(m, left, d, c);
        var r := DisconnectSlot(m, t, kind, c, stray);
        assert Spares(d, r, c);
        SparesTwice(m, d, r, c);
      }
    } else {
      SparesSelf(m, c);
    }
  }

  /** Whatever the table, a source another client uses is not disabled through a trigger on it. */
  lemma DisableSpares(m: Mod, t: nat, kind: Kind, c: nat, stray: nat -> set<nat>)
    requires kind != Hard && t < |m.slots|
    ensures var r := Disable(m, t, kind, c, stray); Spares(m, r, c) && r == m.(enable := r.enable)
  {
  }

  lemma DisconnectHardLaw(m: Mod, t: nat, c: nat, stray: nat -> set<nat>)
    requires m.Valid() && t < SOURCES
    ensures var r := DisconnectHard(m, t, c, stray);
            && r.Valid() && Spares(m, r, c) && r.hard[t] == m.hard[t] - {c}
            && r.slots == m.slots && (forall h :: 0 <= h < SOURCES && h != t ==> r.hard[h] == m.hard[h])
            && (forall h :: h != t ==> (h in r.enable <==> h in m.enable))
            && (t in r.enable <==> t in m.enable && !(m.hard[t] == {c} && !UsedByOther(m, t, c)))
  {
    hide UsedByOther, Slot.Valid;
    var left := m.(hard := m.hard[t := Others(m.hard[t], c)]);
    if m.hard[t] == {} {
      SparesSelf(m, c);
    } else {
      assert Spares(m, left, c);
      if left.hard[t] == {} {
        DisableLaw(left, t, Hard, c, stray);
        SparesTwice(m, left, Disable(left, t, Hard, c, stray), c);
        SameUse(m, left, t, c);
      }
    }
  }

  lemma {:induction false} DisconnectObjLaw(m: Mod, num: nat, kind: Kind, c: nat, stray: nat -> set<nat>, n: nat)
    requires m.Valid() && n <= RAM && kind != Hard
    ensures var r := DisconnectObj(m, num, kind, c, stray, n);
            && r.Valid() && Spares(m, r, c) && SamePtim(m, r) && r.hard == m.hard
            && (forall i :: 0 <= i < n && m.slots[i].Is(num, kind) ==> c !in r.slots[i].clients)
            && (forall i :: 0 <= i < RAM && !(i < n && m.slots[i].Is(num, kind)) ==> r.slots[i] == m.slots[i])
  {
    hide DisconnectSlot, Slot.Valid;
    if n == 0 {
      SparesSelf(m, c);
    } else {
      DisconnectObjLaw(m, num, kind, c, stray, n - 1);
      var p := DisconnectObj(m, num, kind, c, stray, n - 1);
      if p.slots[n - 1].Is(num, kind) {
        DisconnectSlotLaw(p, n - 1, kind, c, stray);
        SparesTwice(m, p, DisconnectSlot(p, n - 1, kind, c, stray), c);
      }
    }
  }

  lemma {:induction false} DisconnectSlotsLaw(m: Mod, c: nat, stray: nat -> set<nat>, n: nat)
    requires m.Valid() && n <= RAM
    ensures var r := DisconnectSlots(m, c, stray, n);
            && r.Valid() && Spares(m, r, c) && SamePtim(m, r) && r.hard == m.hard
            && (forall i :: 0 <= i < n ==> c !in r.slots[i].clients)
            && (forall i :: n <= i < RAM ==> r.slots[i] == m.slots[i])
  {
    hide DisconnectSlot, Slot.Valid;
    if n == 0 {
      SparesSelf(m, c);
    } else {
      DisconnectSlotsLaw(m, c, stray, n - 1);
      var p := DisconnectSlots(m, c, stray, n - 1);
      FreeMeans(p, n - 1);
      if p.slots[n - 1].eqpNum != 0 {
        DisconnectSlotLaw(p, n - 1, p.slots[n - 1].kind, c, stray);
        SparesTwice(m, p, DisconnectSlot(p, n - 1, p.slots[n - 1].kind, c, stray), c);
      }
    }
  }

  lemma FreeMeans(m: Mod, i: nat)
    requires m.Valid() && i < RAM
    ensures m.slots[i].eqpNum == 0 <==> m.slots[i].kind == Hard
    ensures m.slots[i].eqpNum == 0 ==> m.slots[i].clients == {}
  {
    assert m.slots[i].Valid();
  }

  lemma {:induction false} DisconnectHardsLaw(m: Mod, c: nat, stray: nat -> set<nat>, n: nat)
    requires m.Valid() && n <= SOURCES
    ensures var r := DisconnectHards(m, c, stray, n);
            && r.Valid() && Spares(m, r, c) && r.slots == m.slots
            && (forall h :: 0 <= h < n ==> c !in r.hard[h])
            && (forall h :: n <= h < SOURCES ==> r.hard[h] == m.hard[h])
  {
    hide DisconnectHard, Slot.Valid;
    if n == 0 {
      SparesSelf(m, c);
    } else {
      DisconnectHardsLaw(m, c, stray, n - 1);
      var p := DisconnectHards(m, c, stray, n - 1);
      DisconnectHardLaw(p, n - 1, c, stray);
      SparesTwice(m, p, DisconnectHard(p, n - 1, c, stray), c);
    }
  }

  /** A disconnect takes the client off just what it named, every source for the hardware class, and
      spares the others. */
  lemma DisconnectLaw(m: Mod, num: nat, kind: Kind, c: nat, stray: nat -> set<nat>)
    requires m.Valid()
    ensures var r := Disconnect(m, num, kind, c, stray);
            && r.Valid() && Spares(m, r, c) && SamePtim(m, r)
            && (kind == Hard ==> r.slots == m.slots && forall h :: 0 <= h < SOURCES ==> c !in r.hard[h])
            && (kind != Hard ==>
                  && r.hard == m.hard
                  && (forall i :: 0 <= i < RAM && m.slots[i].Is(num, kind) ==> c !in r.slots[i].clients)
                  && (forall i :: 0 <= i < RAM && !m.slots[i].Is(num, kind) ==> r.slots[i] == m.slots[i]))
  {
    if kind == Hard {
      DisconnectHardsLaw(m, c, stray, SOURCES);
    } else {
      DisconnectObjLaw(m, num, kind, c, stray, RAM);
    }
  }

  /** After a close the client is nowhere in the module, and the others are spared. */
  lemma DisconnectAllLaw(m: Mod, c: nat, stray: nat -> set<nat>)
    requires m.Valid()
    ensures var r := DisconnectAll(m, c, stray);
            && r.Valid() && Spares(m, r, c) && SamePtim(m, r)
            && (forall i :: 0 <= i < RAM ==> c !in r.slots[i].clients)
            && (forall h :: 0 <= h < SOURCES ==> c !in r.hard[h])
  {
    hide DisconnectSlots, DisconnectHards, Slot.Valid;
    DisconnectSlotsLaw(m, c, stray, RAM);
    var p := DisconnectSlots(m, c, stray, RAM);
    DisconnectHardsLaw(p, c, stray, SOURCES);
    SparesTwice(m, p, DisconnectHards(p, c, stray, SOURCES), c);
  }

  /** What it does not do: the caller's own other triggers do not count. A client on two slots of one
      enabled counter that leaves one of them is still on the other, and loses the counter's interrupt
      exactly when it was alone on the slot it left, nobody else uses the counter, and nobody else is found
      where `HardClients` is looked up by the slot's number. */
  lemma OwnTriggerSilenced(m: Mod, i: nat, j: nat, kind: Kind, c: nat, stray: nat -> set<nat>)
    requires m.Valid() && i < RAM && j < RAM && i != j && kind != Hard && m.slots[i].counter == m.slots[j].counter
    requires c in m.slots[i].clients && c in m.slots[j].clients && m.slots[i].counter in m.enable
    ensures var r, h := DisconnectSlot(m, i, kind, c, stray), m.slots[i].counter;
            && c in r.slots[j].clients && r.slots[j].counter == h
            && (h !in r.enable <==>
                  m.slots[i].clients == {c} && !UsedByOther(m, h, c) && Others(HardAt(m, i, stray), c) == {})
  {
    hide UsedByOther;
    var h := m.slots[i].counter;
    var left := WithSlot(m, i, m.slots[i].(clients := Others(m.slots[i].clients, c)));
    SlotLeft(m, i, c);
    assert m.slots[i].clients == {c} <==> left.slots[i].clients == {};
    if UsedByOther(m, h, c) {
      UseIsKept(m, left, h, c);
    } else if UsedByOther(left, h, c) {
      UseIsKept(left, m, h, c);
    }
  }

  /** It happens: one client, alone on the module, on two slots of counter 3, leaves the first and is left on
      the second without its interrupt. */
  lemma SilencedExample() returns (m: Mod)
    ensures m.Valid() && m.slots[1].clients == {5} && m.slots[1].counter == 3 && 3 in m.enable
    ensures var r := DisconnectSlot(m, 0, Ptim, 5, _ => {}); r.slots[1].clients == {5} && 3 !in r.enable
  {
    var free, one, two := Slot(0, Hard, {}, 0, false), Slot(7, Ptim, {5}, 3, true), Slot(8, Ptim, {5}, 3, true);
    m := Mod([one, two] + seq(RAM - 2, _ => free), seq(SOURCES, _ => {}), {3});
    assert m.slots[0] == one && m.slots[1] == two;
    OwnTriggerSilenced(m, 0, 1, Ptim, 5, _ => {});
    forall i | 0 <= i < RAM
      ensures !UsedAt(m, i, 3, 5)
    {
      assert m.slots[i] == one || m.slots[i] == two || m.slots[i] == free;
    }
  }

  // ----- connecting -----

  /** A connection to a PTIM object reaches all of its slots and enables all of their counters. */
  lemma ConnectPtimLaw(m: Mod, num: nat, c: nat)
    requires m.Valid()
    ensures var (r, code) := ConnectPtim(m, num, c);
            && r.Valid() && Spares(m, r, c) && SamePtim(m, r) && m.enable <= r.enable
            && (code == Ok <==> exists i :: 0 <= i < RAM && m.slots[i].Is(num, Ptim))
            && (code == Ok ==> forall i :: 0 <= i < RAM && m.slots[i].Is(num, Ptim) && num != 0 ==>
                                 c in r.slots[i].clients && r.slots[i].counter in r.enable)
            && (forall i :: 0 <= i < RAM && !m.slots[i].Is(num, Ptim) ==> r.slots[i] == m.slots[i])
            && (code != Ok ==> code == NoDevice && r == m)
  {
  }

  /** A connection to a CTIM event joins its instance, or makes one in a free slot if the event is known. */
  lemma ConnectCtimLaw(m: Mod, num: nat, known: bool, c: nat)
    requires m.Valid() && num != 0
    ensures var (r, code) := ConnectCtim(m, num, known, c);
            && r.Valid() && Spares(m, r, c) && SamePtim(m, r) && m.enable <= r.enable
            && (code == Ok <==> (exists i :: 0 <= i < RAM && m.slots[i].Is(num, Ctim))
                                || (known && exists i :: 0 <= i < RAM && m.slots[i].eqpNum == 0))
            && (code == Ok ==> exists i :: 0 <= i < RAM && r.slots[i].Is(num, Ctim) && c in r.slots[i].clients
                                 && r.slots[i].counter in r.enable && forall j :: 0 <= j < RAM && j != i ==> r.slots[j] == m.slots[j])
            && (code == NoMemory ==> known && forall i :: 0 <= i < RAM ==> m.slots[i].eqpNum != 0)
            && (code == NoDevice ==> !known) && (code != Ok ==> r == m)
  {
    hide First, FirstFree;
    match First(m.slots, num, Ctim, 0)
    case At(i) => JoinSlot(m, i, c);
    case Nowhere =>
      match FirstFree(m.slots, 0)
      case At(i) => MakeSlot(m, i, num, c);
      case Nowhere => SparesSelf(m, c);
  }

  lemma JoinSlot(m: Mod, i: nat, c: nat)
    requires m.Valid() && i < RAM && m.slots[i].kind == Ctim
    ensures var r := Mod(m.slots[i := Joined(m.slots[i], c)], m.hard, m.enable + {0});
            r.Valid() && Spares(m, r, c) && SamePtim(m, r) && r.slots[i].counter == 0
  {
    assert m.slots[i].Valid();
  }

  lemma MakeSlot(m: Mod, i: nat, num: nat, c: nat)
    requires m.Valid() && i < RAM && m.slots[i].eqpNum == 0 && num != 0
    ensures var r := Mod(m.slots[i := Slot(num, Ctim, m.slots[i].clients + {c}, 0, true)], m.hard, m.enable + {0});
            r.Valid() && Spares(m, r, c) && SamePtim(m, r)
  {
    assert m.slots[i].Valid();
  }

  lemma ConnectHardLaw(m: Mod, sources: set<nat>, c: nat)
    requires m.Valid()
    ensures var (r, code) := ConnectHard(m, sources, c);
            && r.Valid() && Spares(m, r, c) && SamePtim(m, r) && m.enable <= r.enable && r.slots == m.slots
            && (code == Ok <==> exists h: nat :: h < SOURCES && h in sources)
            && (forall h: nat :: h < SOURCES && h in sources ==> c in r.hard[h] && h in r.enable)
            && (forall h: nat :: h < SOURCES && h !in sources ==> r.hard[h] == m.hard[h])
            && (code != Ok ==> code == NoDevice && r == m)
  {
    var chosen := set h | h in sources && h < |m.hard|;
    assert forall h: nat :: h in chosen <==> h in sources && h < SOURCES;
    assert chosen != {} ==> exists h: nat :: h in chosen;
  }
}
