/** Runs of the driver's requests over all modules and clients (ctr/driver/ctrdrvr-pci.c). */
module TimingRuns {
  import opened Timing
  import opened Connections

  /** The requests that touch the trigger tables. `stray` is what lies past the end of `HardClients`. */
  datatype Op =
    | CreateObj(obj: Obj)
    | DestroyObj(num: nat, mod: nat)
    | SetAction(mod: nat, slot: nat, num: nat, kind: Kind, counter: nat)
    | ConnectTo(mod: nat, kind: Kind, num: nat, sources: set<nat>, known: bool, client: nat)
    | DisconnectFrom(mod: nat, kind: Kind, num: nat, client: nat, stray: nat -> set<nat>)
    | Close(client: nat, stray: nat -> set<nat>)

  /** `GetPtimModule`. */
  function ModuleOf(objs: seq<Obj>, num: nat, from: nat): (r: Place)
    ensures r.At? ==> exists i :: from <= i < |objs| && objs[i].eqpNum == num && objs[i].mod == r.start
    ensures r.Nowhere? ==> forall i :: from <= i < |objs| ==> objs[i].eqpNum != num
    decreases |objs| - from
  {
    if from >= |objs| then Nowhere
    else if objs[from].eqpNum == num then At(objs[from].mod)
    else ModuleOf(objs, num, from + 1)
  }

  function WithMod(a: Area, mod: nat, m: Mod): Area
    requires mod < |a.mods|
  {
    a.(mods := a.mods[mod := m])
  }

  function Connect(a: Area, mod: nat, kind: Kind, num: nat, sources: set<nat>, known: bool, c: nat): (Area, Code)
    requires mod < |a.mods|
  {
    match kind
    case Ptim =>
      (match ModuleOf(a.objs, num, 0)
       case Nowhere => (a, NoDevice)
       case At(home) =>
         if home >= |a.mods| then (a, NoDevice)
         else var (m, code) := ConnectPtim(a.mods[home], num, c); (WithMod(a, home, m), code))
    case Ctim => var (m, code) := ConnectCtim(a.mods[mod], num, known, c); (WithMod(a, mod, m), code)
    case Hard => var (m, code) := ConnectHard(a.mods[mod], sources, c); (WithMod(a, mod, m), code)
  }

  /** SET_ACTION: a slot without a class is refused; a matching action rewrites the slot's trigger and
      configuration, with the bus bit forced to whether anyone is connected. */
  function Acted(s: Slot, num: nat, kind: Kind, counter: nat): Slot {
    if s.kind == Hard then s
    else if s.eqpNum != 0 && (s.eqpNum != num || s.kind != kind || s.counter != counter) then s
    else s.(eqpNum := num, kind := kind, counter := counter, bus := s.clients != {})
  }

  function Step(a: Area, op: Op): Area {
    match op
    case CreateObj(o) => Create(a, o).0
    case DestroyObj(num, mod) => Destroy(a, num, mod).0
    case SetAction(mod, i, num, kind, counter) =>
      if mod < |a.mods| && i < |a.mods[mod].slots| then
        WithMod(a, mod, WithSlot(a.mods[mod], i, Acted(a.mods[mod].slots[i], num, kind, counter)))
      else a
    case ConnectTo(mod, kind, num, sources, known, c) =>
      if mod < |a.mods| then Connect(a, mod, kind, num, sources, known, c).0 else a
    case DisconnectFrom(mod, kind, num, c, stray) =>
      if mod >= |a.mods| then a
      else if num == 0 then ClosedFor(a, c, stray)
      else WithMod(a, mod, Disconnect(a.mods[mod], num, kind, c, stray))
    case Close(c, stray) => ClosedFor(a, c, stray)
  }

  /** `DisConnectAll`. */
  function ClosedFor(a: Area, c: nat, stray: nat -> set<nat>): Area {
    a.(mods := seq(|a.mods|, i requires 0 <= i < |a.mods| => DisconnectAll(a.mods[i], c, stray)))
  }

  function Run(a: Area, ops: seq<Op>): Area {
    if ops == [] then a else Step(Run(a, ops[..|ops| - 1]), ops[|ops| - 1])
  }

  /** Nonzero object numbers, at least one slot, counters in range. */
  predicate ProperOp(op: Op) {
    (op.CreateObj? ==> Proper(op.obj)) && (op.ConnectTo? && op.kind == Ctim ==> op.num != 0)
  }

  predicate ProperRun(ops: seq<Op>) {
    forall i :: 0 <= i < |ops| ==> ProperOp(ops[i])
  }

  predicate BySomeoneElse(op: Op, d: nat) {
    (op.ConnectTo? || op.DisconnectFrom? || op.Close?) ==> op.client != d
  }

  /** What the acting client did spares client d's connections in every module. */
  ghost predicate AreaSpares(a: Area, b: Area, d: nat) {
    && |a.mods| == |b.mods|
    && forall m :: 0 <= m < |a.mods| ==> ModSpares(a.mods[m], b.mods[m], d)
  }

  ghost predicate ModSpares(m: Mod, r: Mod, d: nat) {
    && |r.slots| == |m.slots| && |r.hard| == |m.hard|
    && (forall i :: 0 <= i < |m.slots| ==> (d in r.slots[i].clients <==> d in m.slots[i].clients))
    && (forall i :: 0 <= i < |m.slots| && d in m.slots[i].clients ==>
          r.slots[i].eqpNum == m.slots[i].eqpNum && r.slots[i].kind == m.slots[i].kind && r.slots[i].counter == m.slots[i].counter)
    && (forall h :: 0 <= h < |m.hard| ==> (d in r.hard[h] <==> d in m.hard[h]))
    && (forall h :: h in m.enable && Uses(m, h, d) ==> h in r.enable)
  }

  /** Client d is connected to source h, directly or through a slot with that counter. */
  ghost predicate Uses(m: Mod, h: nat, d: nat) {
    (h < |m.hard| && d in m.hard[h]) || exists i :: 0 <= i < |m.slots| && UsesAt(m, i, h, d)
  }

  predicate UsesAt(m: Mod, i: nat, h: nat, d: nat)
    requires i < |m.slots|
  {
    m.slots[i].counter == h && d in m.slots[i].clients
  }

  lemma SparesOne(m: Mod, r: Mod, c: nat, d: nat)
    requires Spares(m, r, c) && c != d
    ensures ModSpares(m, r, d)
  {
    forall h | h in m.enable && Uses(m, h, d)
      ensures h in r.enable
    {
      if h < |m.hard| && d in m.hard[h] {
        assert d in Others(m.hard[h], c);
      } else {
        var i :| 0 <= i < |m.slots| && UsesAt(m, i, h, d);
        assert d in Others(m.slots[i].clients, c);
        assert UsedAt(m, i, h, c);
      }
    }
    forall i | 0 <= i < |m.slots|
      ensures d in r.slots[i].clients <==> d in m.slots[i].clients
      ensures d in m.slots[i].clients ==>
          r.slots[i].eqpNum == m.slots[i].eqpNum && r.slots[i].kind == m.slots[i].kind && r.slots[i].counter == m.slots[i].counter
    {
      assert SlotSpared(m.slots[i], r.slots[i], c);
      assert d in Others(r.slots[i].clients, c) <==> d in r.slots[i].clients;
      assert d in Others(m.slots[i].clients, c) <==> d in m.slots[i].clients;
    }
    forall h | 0 <= h < |m.hard|
      ensures d in r.hard[h] <==> d in m.hard[h]
    {
      assert d in Others(r.hard[h], c) <==> d in r.hard[h];
      assert d in Others(m.hard[h], c) <==> d in m.hard[h];
    }
  }

  lemma SparesRefl(m: Mod, d: nat)
    ensures ModSpares(m, m, d)
  {
  }

  /** Ownership does not depend on who is connected. */
  lemma OwnedKept(a: Area, b: Area)
    requires Valid(a) && |b.mods| == |a.mods| && b.objs == a.objs && ModsValid(b)
    requires forall m :: 0 <= m < |a.mods| ==> SamePtim(a.mods[m], b.mods[m])
    ensures Valid(b)
  {
    hide Slot.Valid;
    forall m, k | 0 <= m < |b.mods| && 0 <= k < |b.mods[m].slots| && b.mods[m].slots[k].kind == Ptim
      ensures exists i :: 0 <= i < |b.objs| && Covers(b.objs[i], m, k)
    {
      assert SamePtim(a.mods[m], b.mods[m]);
      assert a.mods[m].slots[k].kind == Ptim;
    }
    forall i, m, k | 0 <= i < |b.objs| && 0 <= m < |b.mods| && 0 <= k < |b.mods[m].slots| && Covers(b.objs[i], m, k)
      ensures b.mods[m].slots[k].Is(b.objs[i].eqpNum, Ptim)
    {
      assert SamePtim(a.mods[m], b.mods[m]);
      assert a.mods[m].slots[k].Is(a.objs[i].eqpNum, Ptim);
    }
  }

  lemma SamePtimSelf(m: Mod)
    ensures SamePtim(m, m)
  {
  }

  /** Replacing one module by one with the same PTIM slots. */
  lemma OneModKept(a: Area, mod: nat, r: Mod, d: nat)
    requires Valid(a) && mod < |a.mods| && r.Valid() && SamePtim(a.mods[mod], r) && ModSpares(a.mods[mod], r, d)
    ensures Valid(WithMod(a, mod, r)) && AreaSpares(a, WithMod(a, mod, r), d)
  {
    hide Mod.Valid, ModSpares, SamePtim, Owned;
    forall m | 0 <= m < |a.mods|
      ensures SamePtim(a.mods[m], WithMod(a, mod, r).mods[m]) && ModSpares(a.mods[m], WithMod(a, mod, r).mods[m], d)
    {
      SparesRefl(a.mods[m], d);
      SamePtimSelf(a.mods[m]);
    }
    OwnedKept(a, WithMod(a, mod, r));
  }

  lemma ConnectKeeps(a: Area, op: Op, d: nat)
    requires Valid(a) && op.ConnectTo? && ProperOp(op) && op.client != d
    ensures Valid(Step(a, op)) && AreaSpares(a, Step(a, op), d)
  {
    hide Mod.Valid, ModSpares, SamePtim, Spares, Owned, ConnectPtim, ConnectCtim, ConnectHard;
    AreaRefl(a, d);
    if op.mod < |a.mods| {
      match op.kind
      case Ctim =>
        ConnectCtimLaw(a.mods[op.mod], op.num, op.known, op.client);
        SparesOne(a.mods[op.mod], ConnectCtim(a.mods[op.mod], op.num, op.known, op.client).0, op.client, d);
        OneModKept(a, op.mod, ConnectCtim(a.mods[op.mod], op.num, op.known, op.client).0, d);
      case Hard =>
        ConnectHardLaw(a.mods[op.mod], op.sources, op.client);
        SparesOne(a.mods[op.mod], ConnectHard(a.mods[op.mod], op.sources, op.client).0, op.client, d);
        OneModKept(a, op.mod, ConnectHard(a.mods[op.mod], op.sources, op.client).0, d);
      case Ptim =>
        var home := ModuleOf(a.objs, op.num, 0);
        if home.At? && home.start < |a.mods| {
          ConnectPtimLaw(a.mods[home.start], op.num, op.client);
          SparesOne(a.mods[home.start], ConnectPtim(a.mods[home.start], op.num, op.client).0, op.client, d);
          OneModKept(a, home.start, ConnectPtim(a.mods[home.start], op.num, op.client).0, d);
        }
    }
  }

  lemma AreaRefl(a: Area, d: nat)
    ensures AreaSpares(a, a, d)
  {
    forall m | 0 <= m < |a.mods| {
      SparesRefl(a.mods[m], d);
    }
  }

  lemma CloseKeeps(a: Area, c: nat, stray: nat -> set<nat>, d: nat)
    requires Valid(a) && c != d
    ensures Valid(ClosedFor(a, c, stray)) && AreaSpares(a, ClosedFor(a, c, stray), d)
  {
    hide Mod.Valid, ModSpares, SamePtim, Spares, Owned, DisconnectAll;
    forall m | 0 <= m < |a.mods|
      ensures var r := DisconnectAll(a.mods[m], c, stray); r.Valid() && SamePtim(a.mods[m], r) && ModSpares(a.mods[m], r, d)
    {
      DisconnectAllLaw(a.mods[m], c, stray);
      SparesOne(a.mods[m], DisconnectAll(a.mods[m], c, stray), c, d);
    }
    OwnedKept(a, ClosedFor(a, c, stray));
  }

  lemma DisconnectKeeps(a: Area, op: Op, d: nat)
    requires Valid(a) && op.DisconnectFrom? && op.client != d
    ensures Valid(Step(a, op)) && AreaSpares(a, Step(a, op), d)
  {
    hide Mod.Valid, ModSpares, SamePtim, Spares, Owned, Disconnect, ClosedFor;
    if op.mod >= |a.mods| {
      AreaRefl(a, d);
    } else if op.num == 0 {
      CloseKeeps(a, op.client, op.stray, d);
    } else {
      var r := Disconnect(a.mods[op.mod], op.num, op.kind, op.client, op.stray);
      DisconnectLaw(a.mods[op.mod], op.num, op.kind, op.client, op.stray);
      SparesOne(a.mods[op.mod], r, op.client, d);
      OneModKept(a, op.mod, r, d);
    }
  }

  /** On a well-formed table SET_ACTION never gives a slot away: the branch that claims a free slot cannot
      be reached, since a free slot has the class that is refused. */
  lemma ActionKeeps(a: Area, op: Op)
    requires Valid(a) && op.SetAction?
    ensures Step(a, op) == a
  {
    if op.mod < |a.mods| && op.slot < |a.mods[op.mod].slots| {
      var m := a.mods[op.mod];
      assert m.slots[op.slot].Valid();
      assert m.slots[op.slot := m.slots[op.slot]] == m.slots;
      assert a.mods[op.mod := m] == a.mods;
    }
  }

  /** A free slot of another class than the hardware one would be claimed, but no well-formed table has one. */
  lemma FreeSlotClaimed(s: Slot, num: nat, kind: Kind, counter: nat)
    requires s.eqpNum == 0 && s.kind != Hard
    ensures !s.Valid() && Acted(s, num, kind, counter) == Slot(num, kind, s.clients, counter, s.clients != {})
  {
  }

  lemma CreateKeeps(a: Area, o: Obj, d: nat)
    requires Valid(a) && Proper(o)
    ensures Valid(Create(a, o).0) && AreaSpares(a, Create(a, o).0, d)
  {
    CreateValid(a, o);
    AreaRefl(a, d);
    if Create(a, o).1 == Ok {
      CreateSpares(a.mods[o.mod], o, Search(a.mods[o.mod].slots, Wanted(o.size), 0).start, d);
    }
  }

  lemma CreateSpares(m: Mod, o: Obj, start: nat, d: nat)
    requires m.Valid() && RunAt(m.slots, start, o.size)
    ensures ModSpares(m, m.(slots := Taken(m.slots, o, start)), d)
  {
    var r := m.(slots := Taken(m.slots, o, start));
    forall i | 0 <= i < |m.slots| && d in m.slots[i].clients
      ensures r.slots[i] == m.slots[i]
    {
      assert m.slots[i].Valid();
    }
  }

  lemma DestroyKeeps(a: Area, num: nat, mod: nat, d: nat)
    requires Valid(a)
    ensures Valid(Destroy(a, num, mod).0) && AreaSpares(a, Destroy(a, num, mod).0, d)
  {
    DestroyValid(a, num, mod);
    AreaRefl(a, d);
    if Destroy(a, num, mod).1 == Ok {
      DestroySpares(a.mods[mod], num, d);
    }
  }

  lemma DestroySpares(m: Mod, num: nat, d: nat)
    requires !InUse(m.slots, num)
    ensures ModSpares(m, m.(slots := Cleared(m.slots, num)), d)
  {
  }

  lemma StepKeeps(a: Area, op: Op, d: nat)
    requires Valid(a) && ProperOp(op) && BySomeoneElse(op, d)
    ensures Valid(Step(a, op)) && AreaSpares(a, Step(a, op), d)
  {
    hide Valid, AreaSpares, ClosedFor, Create, Destroy;
    match op
    case CreateObj(o) => CreateKeeps(a, o, d);
    case DestroyObj(num, mod) => DestroyKeeps(a, num, mod, d);
    case SetAction(_, _, _, _, _) => ActionKeeps(a, op); AreaRefl(a, d);
    case ConnectTo(_, _, _, _, _, _) => ConnectKeeps(a, op, d);
    case DisconnectFrom(_, _, _, _, _) => DisconnectKeeps(a, op, d);
    case Close(c, stray) => CloseKeeps(a, c, stray, d);
  }

  /** A client nobody is. */
  function Nobody(op: Op): (d: nat)
    ensures BySomeoneElse(op, d)
  {
    if op.ConnectTo? || op.DisconnectFrom? || op.Close? then op.client + 1 else 0
  }

  /** Over every run of requests by any clients, the tables stay well formed and the PTIM slots are
      exactly the disjoint ranges of the registered objects. */
  lemma {:induction false} RunValid(a: Area, ops: seq<Op>)
    requires Valid(a) && ProperRun(ops)
    ensures Valid(Run(a, ops))
  {
    hide Valid, Step;
    if ops != [] {
      RunValid(a, ops[..|ops| - 1]);
      StepKeeps(Run(a, ops[..|ops| - 1]), ops[|ops| - 1], Nobody(ops[|ops| - 1]));
    }
  }

  lemma SparesTwiceArea(a: Area, b: Area, e: Area, d: nat)
    requires AreaSpares(a, b, d) && AreaSpares(b, e, d)
    ensures AreaSpares(a, e, d)
  {
    hide Uses;
    forall m | 0 <= m < |a.mods|
      ensures ModSpares(a.mods[m], e.mods[m], d)
    {
      assert ModSpares(a.mods[m], b.mods[m], d) && ModSpares(b.mods[m], e.mods[m], d);
      forall h | h in a.mods[m].enable && Uses(a.mods[m], h, d)
        ensures h in e.mods[m].enable
      {
        UsesKept(a.mods[m], b.mods[m], h, d);
      }
    }
  }

  lemma UsesKept(m: Mod, r: Mod, h: nat, d: nat)
    requires ModSpares(m, r, d) && Uses(m, h, d)
    ensures Uses(r, h, d)
  {
    if !(h < |m.hard| && d in m.hard[h]) {
      var i :| 0 <= i < |m.slots| && UsesAt(m, i, h, d);
      assert UsesAt(r, i, h, d);
    }
  }

  /** Clients do not interfere: whatever requests others make, in any order, a client stays connected to
      exactly what it was connected to, its slots keep their object, class and counter, and every enabled
      interrupt it uses stays enabled. */
  lemma {:induction false} OthersNeverInterfere(a: Area, ops: seq<Op>, d: nat)
    requires Valid(a) && ProperRun(ops) && forall i :: 0 <= i < |ops| ==> BySomeoneElse(ops[i], d)
    ensures AreaSpares(a, Run(a, ops), d)
  {
    hide Valid, Step, AreaSpares;
    if ops == [] {
      AreaRefl(a, d);
    } else {
      OthersNeverInterfere(a, ops[..|ops| - 1], d);
      RunValid(a, ops[..|ops| - 1]);
      StepKeeps(Run(a, ops[..|ops| - 1]), ops[|ops| - 1], d);
      SparesTwiceArea(a, Run(a, ops[..|ops| - 1]), Run(a, ops), d);
    }
  }

  /** A driver just installed: empty tables. */
  function Installed(modules: nat): Area {
    Area(seq(modules, _ => Mod(seq(RAM, _ => Slot(0, Hard, {}, 0, false)), seq(SOURCES, _ => {}), {})), [])
  }

  lemma InstalledValid(modules: nat)
    ensures Valid(Installed(modules))
  {
  }

  lemma {:induction false} RunModules(a: Area, ops: seq<Op>)
    requires Valid(a) && ProperRun(ops)
    ensures |Run(a, ops).mods| == |a.mods|
  {
    hide Valid, Step, ModSpares;
    if ops != [] {
      RunModules(a, ops[..|ops| - 1]);
      RunValid(a, ops[..|ops| - 1]);
      StepKeeps(Run(a, ops[..|ops| - 1]), ops[|ops| - 1], Nobody(ops[|ops| - 1]));
    }
  }

  /** From the installation on, whatever is requested: a slot of any module is owned by PTIM if and only if
      it lies in the range of a registered object, and then of one only. */
  lemma OneOwnerFromInstallation(modules: nat, ops: seq<Op>, mod: nat, k: nat)
    requires ProperRun(ops) && mod < modules && k < RAM
    ensures var a := Run(Installed(modules), ops);
            && Valid(a) && |a.mods| == modules && |a.mods[mod].slots| == RAM
            && (a.mods[mod].slots[k].kind == Ptim <==> exists i :: 0 <= i < |a.objs| && Covers(a.objs[i], mod, k))
            && forall i, j :: 0 <= i < |a.objs| && 0 <= j < |a.objs| && Covers(a.objs[i], mod, k) && Covers(a.objs[j], mod, k)
                 ==> i == j
  {
    hide Run;
    InstalledValid(modules);
    RunValid(Installed(modules), ops);
    RunModules(Installed(modules), ops);
    assert Run(Installed(modules), ops).mods[mod].Valid();
    ExactlyOneOwner(Run(Installed(modules), ops), mod, k);
  }

  /** The request that registered an object. */
  predicate CreatedBy(op: Op, o: Obj) {
    op.CreateObj? && op.obj.(start := o.start) == o
  }

  lemma {:induction false} ObjectsWereCreated(modules: nat, ops: seq<Op>)
    requires ProperRun(ops)
    ensures forall o <- Run(Installed(modules), ops).objs :: exists j :: 0 <= j < |ops| && CreatedBy(ops[j], o)
  {
    hide Valid, Create, Destroy, ClosedFor, Connect;
    if ops != [] {
      var rest, n := ops[..|ops| - 1], |ops| - 1;
      var a := Run(Installed(modules), rest);
      ObjectsWereCreated(modules, rest);
      InstalledValid(modules);
      RunValid(Installed(modules), rest);
      NewObjects(a, ops[n]);
      forall o | o in Run(Installed(modules), ops).objs
        ensures exists j :: 0 <= j < |ops| && CreatedBy(ops[j], o)
      {
        if o in a.objs {
          var j :| 0 <= j < |rest| && CreatedBy(rest[j], o);
          assert ops[j] == rest[j];
        }
      }
    }
  }

  /** Only a creation registers anything. */
  lemma NewObjects(a: Area, op: Op)
    requires Valid(a)
    ensures forall o <- Step(a, op).objs :: o in a.objs || CreatedBy(op, o)
  {
    hide Dropped, Connections.Disconnect, DisconnectAll, ConnectPtim, ConnectCtim, ConnectHard;
    match op
    case DestroyObj(num, mod) => DroppedIs(a.objs, num, 0);
    case _ =>
  }

  /** From the installation on, after any requests: a connection to a registered PTIM object reaches all of its slots
      and enables the interrupt of the very counter the object was created with. */
  lemma ConnectionEnables(modules: nat, ops: seq<Op>, i: nat, mod: nat, sources: set<nat>, known: bool, c: nat)
    requires ProperRun(ops) && i < |Run(Installed(modules), ops).objs| && mod < modules
    ensures var a := Run(Installed(modules), ops);
            var o, b := a.objs[i], Step(a, ConnectTo(mod, Ptim, a.objs[i].eqpNum, sources, known, c));
            && (exists j :: 0 <= j < |ops| && CreatedBy(ops[j], o))
            && o.mod < |b.mods| && |b.mods[o.mod].slots| == RAM && o.start + o.size <= RAM
            && o.counter in b.mods[o.mod].enable
            && (forall k :: o.start <= k < o.start + o.size ==>
                  c in b.mods[o.mod].slots[k].clients && b.mods[o.mod].slots[k].counter == o.counter)
  {
    hide Run;
    InstalledValid(modules);
    RunValid(Installed(modules), ops);
    RunModules(Installed(modules), ops);
    ObjectsWereCreated(modules, ops);
    assert Run(Installed(modules), ops).objs[i] in Run(Installed(modules), ops).objs;
    ConnectionReaches(Run(Installed(modules), ops), i, mod, sources, known, c);
  }

  lemma ConnectionReaches(a: Area, i: nat, mod: nat, sources: set<nat>, known: bool, c: nat)
    requires Valid(a) && i < |a.objs| && mod < |a.mods|
    ensures var o, b := a.objs[i], Step(a, ConnectTo(mod, Ptim, a.objs[i].eqpNum, sources, known, c));
            && o.mod < |b.mods| && |b.mods[o.mod].slots| == RAM && o.start + o.size <= RAM
            && o.counter in b.mods[o.mod].enable
            && (forall k :: o.start <= k < o.start + o.size ==>
                  c in b.mods[o.mod].slots[k].clients && b.mods[o.mod].slots[k].counter == o.counter)
  {
    hide ConnectPtim, Slot.Valid, Spares;
    var o := a.objs[i];
    var m := a.mods[o.mod];
    assert m.Valid();
    HomeIs(a, i);
    ConnectPtimLaw(m, o.eqpNum, c);
    var r := ConnectPtim(m, o.eqpNum, c).0;
    assert WithMod(a, o.mod, r).mods[o.mod] == r;
    forall k: nat | o.start <= k < o.start + o.size
      ensures m.slots[k].Is(o.eqpNum, Ptim) && m.slots[k].counter == o.counter
    {
      assert Covers(o, o.mod, k);
    }
    assert m.slots[o.start].Is(o.eqpNum, Ptim);
    forall k: nat | o.start <= k < o.start + o.size
      ensures c in r.slots[k].clients && r.slots[k].counter == o.counter && r.slots[k].counter in r.enable
    {
      assert m.slots[k].Is(o.eqpNum, Ptim);
      PtimKeptCounter(m, o.eqpNum, c, k);
    }
    assert r.slots[o.start].counter in r.enable;
  }

  lemma PtimKeptCounter(m: Mod, num: nat, c: nat, k: nat)
    requires k < |m.slots|
    ensures |ConnectPtim(m, num, c).0.slots| == |m.slots| && ConnectPtim(m, num, c).0.slots[k].counter == m.slots[k].counter
  {
  }

  lemma SameObject(a: Area, i: nat, j: nat)
    requires Valid(a) && i < |a.objs| && j < |a.objs| && a.objs[i].eqpNum == a.objs[j].eqpNum
    ensures i == j
  {
    hide Mod.Valid;
  }

  /** An object's number leads to its module. */
  lemma HomeIs(a: Area, i: nat)
    requires Valid(a) && i < |a.objs|
    ensures ModuleOf(a.objs, a.objs[i].eqpNum, 0) == At(a.objs[i].mod)
  {
    hide Mod.Valid;
    var r := ModuleOf(a.objs, a.objs[i].eqpNum, 0);
    if r.At? {
      var j: nat :| j < |a.objs| && a.objs[j].eqpNum == a.objs[i].eqpNum && a.objs[j].mod == r.start;
      SameObject(a, i, j);
    }
  }

  /** A client is connected somewhere in a module. */
  ghost predicate Somewhere(m: Mod, c: nat) {
    (exists i :: 0 <= i < |m.slots| && c in m.slots[i].clients) || (exists h :: 0 <= h < |m.hard| && c in m.hard[h])
  }

  /** After a close, or a disconnect that names no object, the client is nowhere in any module. */
  lemma CloseLeavesAll(a: Area, c: nat, stray: nat -> set<nat>, mod: nat, kind: Kind)
    requires Valid(a) && mod < |a.mods|
    ensures Step(a, Close(c, stray)) == Step(a, DisconnectFrom(mod, kind, 0, c, stray))
    ensures var b := Step(a, Close(c, stray));
            b.objs == a.objs && |b.mods| == |a.mods| && forall m :: 0 <= m < |b.mods| ==> !Somewhere(b.mods[m], c)
  {
    hide DisconnectAll, Slot.Valid, Spares, SamePtim;
    forall m | 0 <= m < |a.mods|
      ensures !Somewhere(DisconnectAll(a.mods[m], c, stray), c)
    {
      DisconnectAllLaw(a.mods[m], c, stray);
    }
  }

  /** A disconnect that names one takes the client off it in that module, and touches no other module. */
  lemma DisconnectLeavesOne(a: Area, c: nat, stray: nat -> set<nat>, mod: nat, kind: Kind, num: nat)
    requires Valid(a) && mod < |a.mods| && num != 0
    ensures var b := Step(a, DisconnectFrom(mod, kind, num, c, stray));
            && b.objs == a.objs && |b.mods| == |a.mods| && (forall m :: 0 <= m < |b.mods| && m != mod ==> b.mods[m] == a.mods[m])
            && |b.mods[mod].slots| == RAM && |b.mods[mod].hard| == SOURCES
            && (kind == Hard ==> forall h :: 0 <= h < SOURCES ==> c !in b.mods[mod].hard[h])
            && (kind != Hard ==>
                  forall i :: 0 <= i < RAM && a.mods[mod].slots[i].Is(num, kind) ==> c !in b.mods[mod].slots[i].clients)
  {
    hide Connections.Disconnect, Slot.Valid, Spares, SamePtim;
    assert a.mods[mod].Valid();
    DisconnectLaw(a.mods[mod], num, kind, c, stray);
  }

  /** A connection to the sources of a mask enables them in that module; */
  lemma SourcesTaken(a: Area, c: nat, mod: nat, num: nat, sources: set<nat>, known: bool)
    requires Valid(a) && mod < |a.mods|
    ensures var b := Step(a, ConnectTo(mod, Hard, num, sources, known, c));
            && b.objs == a.objs && |b.mods| == |a.mods| && (forall m :: 0 <= m < |b.mods| && m != mod ==> b.mods[m] == a.mods[m])
            && |b.mods[mod].hard| == SOURCES
            && forall h: nat :: h < SOURCES && h in sources ==> c in b.mods[mod].hard[h] && h in b.mods[mod].enable
  {
    hide ConnectHard, Slot.Valid, Spares, SamePtim;
    assert a.mods[mod].Valid();
    ConnectHardLaw(a.mods[mod], sources, c);
  }

  /** and one to a known CTIM event joins an instance of it there, if there is one or a slot is free. */
  lemma EventTaken(a: Area, c: nat, mod: nat, num: nat, sources: set<nat>)
    requires Valid(a) && mod < |a.mods| && num != 0
    requires exists i :: 0 <= i < RAM && (a.mods[mod].slots[i].eqpNum == 0 || a.mods[mod].slots[i].Is(num, Ctim))
    ensures var b := Step(a, ConnectTo(mod, Ctim, num, sources, true, c));
            && b.objs == a.objs && |b.mods| == |a.mods| && (forall m :: 0 <= m < |b.mods| && m != mod ==> b.mods[m] == a.mods[m])
            && |b.mods[mod].slots| == RAM
            && exists i :: 0 <= i < RAM && b.mods[mod].slots[i].Is(num, Ctim) && c in b.mods[mod].slots[i].clients
                           && b.mods[mod].slots[i].counter in b.mods[mod].enable
  {
    hide ConnectCtim, Slot.Valid, Spares, SamePtim;
    assert a.mods[mod].Valid();
    ConnectCtimLaw(a.mods[mod], num, true, c);
  }
}
