/** Bit fields of the CTR's hardware registers (ctr/driver/ctrdrvr-pci.c), for any masks. */
module Packing {

  /** A 32-bit word, least significant bit first. */
  type Word = w: seq<bool> | |w| == 32
    witness [false, false, false, false, false, false, false, false, false, false, false, false, false, false, false, false,
             false, false, false, false, false, false, false, false, false, false, false, false, false, false, false, false]

  const ZERO: Word := Span(0, 0)

  function Shl(w: Word, i: nat): Word {
    seq(32, k requires 0 <= k < 32 => k >= i && w[k - i])
  }

  function Shr(w: Word, i: nat): Word {
    seq(32, k requires 0 <= k < 32 => k + i < 32 && w[k + i])
  }

  /** The shift of a signed word: the top bit is repeated. */
  function Sar(w: Word, i: nat): Word {
    seq(32, k requires 0 <= k < 32 => w[if k + i < 32 then k + i else 31])
  }

  function And(a: Word, b: Word): Word {
    seq(32, k requires 0 <= k < 32 => a[k] && b[k])
  }

  function Or(a: Word, b: Word): Word {
    seq(32, k requires 0 <= k < 32 => a[k] || b[k])
  }

  function Not(a: Word): Word {
    seq(32, k requires 0 <= k < 32 => !a[k])
  }

  /** Place of the lowest set bit; 32 if there is none. */
  function Low(mask: Word, from: nat): (r: nat)
    requires from <= 32
    ensures from <= r <= 32 && (r < 32 ==> mask[r]) && forall k :: from <= k < r ==> !mask[k]
    decreases 32 - from
  {
    if from == 32 || mask[from] then from else Low(mask, from + 1)
  }

  /** `AutoShiftLeft`. */
  function Left(mask: Word, value: Word): Word {
    And(Shl(value, Low(mask, 0)), mask)
  }

  /** `AutoShiftRight`: the mask it applies was shifted as a signed word. */
  function Right(mask: Word, value: Word): Word {
    And(Shr(value, Low(mask, 0)), Sar(mask, Low(mask, 0)))
  }

  method AutoShiftLeft(mask: Word, value: Word) returns (r: Word)
    ensures r == Left(mask, value)
  {
    var i := Count(mask);
    r := And(Shl(value, i), mask);
  }

  method AutoShiftRight(mask: Word, value: Word) returns (r: Word)
    ensures r == Right(mask, value)
  {
    var m := mask;
    var i := 0;
    while i < 32 && !m[0]
      invariant i <= 32 && m == Sar(mask, i) && Low(mask, i) == Low(mask, 0)
    {
      m := Sar(m, 1);
      i := i + 1;
    }
    r := And(Shr(value, i), m);
  }

  method Count(mask: Word) returns (i: nat)
    ensures i == Low(mask, 0)
  {
    var m := mask;
    i := 0;
    while i < 32 && !m[0]
      invariant i <= 32 && m == Sar(mask, i) && Low(mask, i) == Low(mask, 0)
    {
      m := Sar(m, 1);
      i := i + 1;
    }
  }

  /** The value has no bit outside the field. */
  predicate Fits(mask: Word, value: Word) {
    forall k :: 0 <= k < 32 && value[k] ==> k + Low(mask, 0) < 32 && mask[k + Low(mask, 0)]
  }

  predicate Disjoint(a: Word, b: Word) {
    forall k :: 0 <= k < 32 ==> !(a[k] && b[k])
  }

  lemma LeftBit(mask: Word, value: Word, k: nat)
    requires k < 32
    ensures Left(mask, value)[k] <==> mask[k] && value[k - Low(mask, 0)]
  {
  }

  lemma RightBit(mask: Word, w: Word, k: nat)
    requires k < 32
    ensures var n := Low(mask, 0); Right(mask, w)[k] <==> k + n < 32 && w[k + n] && mask[k + n]
  {
  }

  /** The two shifts are inverse: on the bits under the mask, and on values that fit. */
  lemma LeftRight(mask: Word, w: Word)
    ensures Left(mask, Right(mask, w)) == And(w, mask)
    ensures Fits(mask, Right(mask, w))
  {
    hide Left, Right, And;
    var n := Low(mask, 0);
    forall k | 0 <= k < 32
      ensures Left(mask, Right(mask, w))[k] == And(w, mask)[k]
    {
      LeftBit(mask, Right(mask, w), k);
      AndBit(w, mask, k);
      if mask[k] {
        RightBit(mask, w, k - n);
      }
    }
    forall k | 0 <= k < 32 {
      RightBit(mask, w, k);
    }
  }

  lemma AndBit(a: Word, b: Word, k: nat)
    requires k < 32
    ensures And(a, b)[k] <==> a[k] && b[k]
  {
  }

  lemma RightLeft(mask: Word, value: Word)
    requires Fits(mask, value)
    ensures Right(mask, Left(mask, value)) == value
  {
    hide Left, Right;
    var n := Low(mask, 0);
    forall k | 0 <= k < 32
      ensures Right(mask, Left(mask, value))[k] == value[k]
    {
      RightBit(mask, Left(mask, value), k);
      if k + n < 32 {
        LeftBit(mask, value, k + n);
      }
    }
  }

  /** A field is read from its own bits only. */
  lemma RightSees(mask: Word, a: Word, b: Word)
    requires And(a, mask) == And(b, mask)
    ensures Right(mask, a) == Right(mask, b)
  {
    hide Left, Right, And;
    var n := Low(mask, 0);
    forall k | 0 <= k < 32
      ensures Right(mask, a)[k] == Right(mask, b)[k]
    {
      RightBit(mask, a, k);
      RightBit(mask, b, k);
      if k + n < 32 {
        AndBit(a, mask, k + n);
        AndBit(b, mask, k + n);
      }
    }
  }

  datatype Field = Field(mask: Word, value: Word)

  /** A register assembled field by field. */
  function Assemble(fields: seq<Field>): Word {
    if fields == [] then ZERO
    else Or(Assemble(fields[..|fields| - 1]), Left(fields[|fields| - 1].mask, fields[|fields| - 1].value))
  }

  predicate Separate(fields: seq<Field>) {
    forall i, j :: 0 <= i < j < |fields| ==> Disjoint(fields[i].mask, fields[j].mask)
  }

  lemma {:induction false} AssembleBit(fields: seq<Field>, i: nat, k: nat)
    requires Separate(fields) && i < |fields| && k < 32 && fields[i].mask[k]
    ensures Assemble(fields)[k] == Left(fields[i].mask, fields[i].value)[k]
  {
    var n := |fields| - 1;
    if i < n {
      AssembleBit(fields[..n], i, k);
      assert Disjoint(fields[i].mask, fields[n].mask);
    } else {
      OutsideClear(fields[..n], fields[n].mask, k);
    }
  }

  lemma {:induction false} OutsideClear(fields: seq<Field>, mask: Word, k: nat)
    requires (forall i :: 0 <= i < |fields| ==> Disjoint(fields[i].mask, mask)) && k < 32 && mask[k]
    ensures !Assemble(fields)[k]
  {
    if fields != [] {
      OutsideClear(fields[..|fields| - 1], mask, k);
      assert Disjoint(fields[|fields| - 1].mask, mask);
    }
  }

  /** Whatever the masks, as long as no two overlap: each field that fits reads back. */
  lemma FieldsReadBack(fields: seq<Field>, i: nat)
    requires Separate(fields) && i < |fields| && Fits(fields[i].mask, fields[i].value)
    ensures Right(fields[i].mask, Assemble(fields)) == fields[i].value
  {
    hide Left, Right, And, Assemble, Separate, Fits;
    var mask, value := fields[i].mask, fields[i].value;
    var l := Left(mask, value);
    forall k | 0 <= k < 32
      ensures And(Assemble(fields), mask)[k] == And(l, mask)[k]
    {
      AndBit(Assemble(fields), mask, k);
      AndBit(l, mask, k);
      if mask[k] {
        AssembleBit(fields, i, k);
      }
    }
    assert And(Assemble(fields), mask) == And(l, mask);
    RightSees(mask, Assemble(fields), l);
    RightLeft(mask, value);
  }

  predicate Covered(fields: seq<Field>, k: nat)
    requires k < 32
  {
    exists i :: 0 <= i < |fields| && fields[i].mask[k]
  }

  /** If moreover the masks cover the word, a word is rebuilt from its fields. */
  lemma WordReadBack(w: Word, fields: seq<Field>)
    requires Separate(fields) && forall i :: 0 <= i < |fields| ==> fields[i].value == Right(fields[i].mask, w)
    requires forall k :: 0 <= k < 32 ==> Covered(fields, k)
    ensures Assemble(fields) == w
  {
    hide Left, Right, And, Assemble, Separate;
    forall k | 0 <= k < 32
      ensures Assemble(fields)[k] == w[k]
    {
      assert Covered(fields, k);
      var i :| 0 <= i < |fields| && fields[i].mask[k];
      AssembleBit(fields, i, k);
      LeftRight(fields[i].mask, w);
      AndBit(w, fields[i].mask, k);
    }
  }

  /** The mask of n bits from bit `low` on. */
  function Span(low: nat, n: nat): Word {
    seq(32, k requires 0 <= k < 32 => low <= k < low + n)
  }

  /** The n low bits of a value lie in the word from bit `low` on. */
  predicate Lies(w: Word, low: nat, n: nat, value: Word)
    requires low + n <= 32
  {
    forall i :: 0 <= i < n ==> w[low + i] == value[i]
  }

  lemma FieldLies(fields: seq<Field>, j: nat, low: nat, n: nat)
    requires Separate(fields) && j < |fields| && fields[j].mask == Span(low, n) && n > 0 && low + n <= 32
    ensures Lies(Assemble(fields), low, n, fields[j].value)
  {
    hide Left, Assemble, Separate;
    LowOfSpan(low, n);
    forall i | 0 <= i < n
      ensures Assemble(fields)[low + i] == fields[j].value[i]
    {
      AssembleBit(fields, j, low + i);
      LeftBit(fields[j].mask, fields[j].value, low + i);
    }
  }

  lemma LowOfSpan(low: nat, n: nat)
    requires n > 0 && low + n <= 32
    ensures Low(Span(low, n), 0) == low
  {
    assert Span(low, n)[low];
  }

  // ----- triggers -----

  const GROUP_VALUE: Word := Span(0, 16)    // 0x0000FFFF
  const GROUP_NUMBER: Word := Span(16, 7)   // 0x007F0000
  const COUNTER: Word := Span(23, 4)        // 0x07800000
  const MACHINE: Word := Span(27, 3)        // 0x38000000
  const CONDITION: Word := Span(30, 2)      // 0xC0000000

  datatype Trigger = Trigger(ctim: nat, frame: Word, groupValue: Word, condition: Word, machine: Word, counter: Word, groupNumber: Word)
  datatype HwTrigger = HwTrigger(frame: Word, trigger: Word)

  function TriggerFields(t: Trigger): seq<Field> {
    [Field(GROUP_VALUE, t.groupValue), Field(CONDITION, t.condition), Field(MACHINE, t.machine), Field(COUNTER, t.counter),
     Field(GROUP_NUMBER, t.groupNumber)]
  }

  predicate TriggerFits(t: Trigger) {
    && Fits(GROUP_VALUE, t.groupValue) && Fits(CONDITION, t.condition) && Fits(MACHINE, t.machine) && Fits(COUNTER, t.counter)
    && Fits(GROUP_NUMBER, t.groupNumber)
  }

  method TriggerToHard(t: Trigger) returns (h: HwTrigger)
    ensures h == HwTrigger(t.frame, Assemble(TriggerFields(t)))
  {
    hide Left, Or;
    var trigger := AutoShiftLeft(GROUP_VALUE, t.groupValue);
    var part := AutoShiftLeft(CONDITION, t.condition);
    trigger := Or(trigger, part);
    part := AutoShiftLeft(MACHINE, t.machine);
    trigger := Or(trigger, part);
    part := AutoShiftLeft(COUNTER, t.counter);
    trigger := Or(trigger, part);
    part := AutoShiftLeft(GROUP_NUMBER, t.groupNumber);
    trigger := Or(trigger, part);
    AssembleFive(TriggerFields(t));
    h := HwTrigger(t.frame, trigger);
  }

  lemma NoFields(mask: Word, value: Word)
    ensures Or(ZERO, Left(mask, value)) == Left(mask, value)
  {
    hide Left;
  }

  lemma AssembleFive(f: seq<Field>)
    requires |f| == 5
    ensures Assemble(f) == Or(Or(Or(Or(Left(f[0].mask, f[0].value), Left(f[1].mask, f[1].value)), Left(f[2].mask, f[2].value)),
                                 Left(f[3].mask, f[3].value)), Left(f[4].mask, f[4].value))
  {
    hide Left, Or;
    NoFields(f[0].mask, f[0].value);
    assert f[..1][..0] == [] && f[..2][..1] == f[..1] && f[..3][..2] == f[..2] && f[..4][..3] == f[..3];
    assert Assemble(f[..1]) == Or(ZERO, Left(f[0].mask, f[0].value));
    assert Assemble(f[..2]) == Or(Assemble(f[..1]), Left(f[1].mask, f[1].value));
    assert Assemble(f[..3]) == Or(Assemble(f[..2]), Left(f[2].mask, f[2].value));
    assert Assemble(f[..4]) == Or(Assemble(f[..3]), Left(f[3].mask, f[3].value));
  }

  /** What the reader of a hardware trigger makes of it; the event number is not in the hardware. */
  function HardToTrigger(h: HwTrigger, ctim: nat): Trigger {
    Trigger(ctim, h.frame, Right(GROUP_VALUE, h.trigger), Right(CONDITION, h.trigger), Right(MACHINE, h.trigger),
            Right(COUNTER, h.trigger), Right(GROUP_NUMBER, h.trigger))
  }

  lemma TriggerMasks(t: Trigger)
    ensures Separate(TriggerFields(t))
    ensures forall k :: 0 <= k < 32 ==> Covered(TriggerFields(t), k)
  {
    var f := TriggerFields(t);
    forall k | 0 <= k < 32
      ensures Covered(f, k)
    {
      var i := if k < 16 then 0 else if k < 23 then 4 else if k < 27 then 3 else if k < 30 then 2 else 1;
      assert f[i].mask[k];
    }
  }

  /** Which bits of the hardware word are which field. */
  lemma TriggerBits(t: Trigger)
    ensures var w := Assemble(TriggerFields(t));
            && Lies(w, 0, 16, t.groupValue) && Lies(w, 16, 7, t.groupNumber) && Lies(w, 23, 4, t.counter)
            && Lies(w, 27, 3, t.machine) && Lies(w, 30, 2, t.condition)
  {
    hide Assemble, Span, Lies;
    var f := TriggerFields(t);
    TriggerMasks(t);
    FieldLies(f, 0, 0, 16);
    FieldLies(f, 1, 30, 2);
    FieldLies(f, 2, 27, 3);
    FieldLies(f, 3, 23, 4);
    FieldLies(f, 4, 16, 7);
  }

  /** Triggers survive the trip through the hardware form, all but the event number; and so do hardware
      triggers through the driver's form. */
  lemma TriggerRoundTrip(t: Trigger, h: HwTrigger, ctim: nat)
    ensures TriggerFits(t) ==> HardToTrigger(HwTrigger(t.frame, Assemble(TriggerFields(t))), ctim) == t.(ctim := ctim)
    ensures var u := HardToTrigger(h, ctim);
            TriggerFits(u) && HwTrigger(u.frame, Assemble(TriggerFields(u))) == h
  {
    hide Left, Right, Fits, Assemble, Span;
    var f := TriggerFields(t);
    TriggerMasks(t);
    if TriggerFits(t) {
      FieldsReadBack(f, 0);
      FieldsReadBack(f, 1);
      FieldsReadBack(f, 2);
      FieldsReadBack(f, 3);
      FieldsReadBack(f, 4);
    }
    var u := HardToTrigger(h, ctim);
    TriggerMasks(u);
    WordReadBack(h.trigger, TriggerFields(u));
    LeftRight(GROUP_VALUE, h.trigger);
    LeftRight(CONDITION, h.trigger);
    LeftRight(MACHINE, h.trigger);
    LeftRight(COUNTER, h.trigger);
    LeftRight(GROUP_NUMBER, h.trigger);
  }

  // ----- counter configurations -----

  const PULSE_WIDTH: Word := Span(0, 22) // 0x003FFFFF
  const CLOCK: Word := Span(22, 3)       // 0x01C00000
  const MODE: Word := Span(25, 2)        // 0x06000000
  const START: Word := Span(27, 3)       // 0x38000000
  const ON_ZERO: Word := Span(30, 2)     // 0xC0000000

  const ON_ZERO_BUS: Word := Span(0, 1)  // the value 1

  datatype Config = Config(onZero: Word, start: Word, mode: Word, clock: Word, pulseWidth: Word, delay: Word)
  datatype HwConfig = HwConfig(config: Word, delay: Word)

  function ConfigFields(c: Config): seq<Field> {
    [Field(PULSE_WIDTH, c.pulseWidth), Field(CLOCK, c.clock), Field(MODE, c.mode), Field(START, c.start), Field(ON_ZERO, c.onZero)]
  }

  predicate ConfigFits(c: Config) {
    && Fits(PULSE_WIDTH, c.pulseWidth) && Fits(CLOCK, c.clock) && Fits(MODE, c.mode) && Fits(START, c.start)
    && Fits(ON_ZERO, c.onZero)
  }

  method ConfigToHard(c: Config) returns (h: HwConfig)
    ensures h == HwConfig(Assemble(ConfigFields(c)), c.delay)
  {
    hide Left, Or;
    var config := AutoShiftLeft(PULSE_WIDTH, c.pulseWidth);
    var part := AutoShiftLeft(CLOCK, c.clock);
    config := Or(config, part);
    part := AutoShiftLeft(MODE, c.mode);
    config := Or(config, part);
    part := AutoShiftLeft(START, c.start);
    config := Or(config, part);
    part := AutoShiftLeft(ON_ZERO, c.onZero);
    config := Or(config, part);
    AssembleFive(ConfigFields(c));
    h := HwConfig(config, c.delay);
  }

  function HardToConfig(h: HwConfig): Config {
    Config(Right(ON_ZERO, h.config), Right(START, h.config), Right(MODE, h.config), Right(CLOCK, h.config),
           Right(PULSE_WIDTH, h.config), h.delay)
  }

  lemma ConfigMasks(c: Config)
    ensures Separate(ConfigFields(c))
    ensures forall k :: 0 <= k < 32 ==> Covered(ConfigFields(c), k)
  {
    var f := ConfigFields(c);
    forall k | 0 <= k < 32
      ensures Covered(f, k)
    {
      var i := if k < 22 then 0 else if k < 25 then 1 else if k < 27 then 2 else if k < 30 then 3 else 4;
      assert f[i].mask[k];
    }
  }

  /** Which bits of the hardware word are which field. */
  lemma ConfigBits(c: Config)
    ensures var w := Assemble(ConfigFields(c));
            && Lies(w, 0, 22, c.pulseWidth) && Lies(w, 22, 3, c.clock) && Lies(w, 25, 2, c.mode)
            && Lies(w, 27, 3, c.start) && Lies(w, 30, 2, c.onZero)
  {
    hide Assemble, Span, Lies;
    var f := ConfigFields(c);
    ConfigMasks(c);
    FieldLies(f, 0, 0, 22);
    FieldLies(f, 1, 22, 3);
    FieldLies(f, 2, 25, 2);
    FieldLies(f, 3, 27, 3);
    FieldLies(f, 4, 30, 2);
  }

  /** Configurations survive the trip through the hardware form, and hardware configurations the trip
      through the driver's. */
  lemma ConfigRoundTrip(c: Config, h: HwConfig)
    ensures ConfigFits(c) ==> HardToConfig(HwConfig(Assemble(ConfigFields(c)), c.delay)) == c
    ensures var d := HardToConfig(h);
            ConfigFits(d) && HwConfig(Assemble(ConfigFields(d)), d.delay) == h
  {
    hide Left, Right, Fits, Assemble, Span;
    var f := ConfigFields(c);
    ConfigMasks(c);
    if ConfigFits(c) {
      FieldsReadBack(f, 0);
      FieldsReadBack(f, 1);
      FieldsReadBack(f, 2);
      FieldsReadBack(f, 3);
      FieldsReadBack(f, 4);
    }
    var d := HardToConfig(h);
    ConfigMasks(d);
    WordReadBack(h.config, ConfigFields(d));
    LeftRight(PULSE_WIDTH, h.config);
    LeftRight(CLOCK, h.config);
    LeftRight(MODE, h.config);
    LeftRight(START, h.config);
    LeftRight(ON_ZERO, h.config);
  }

  /** Setting or clearing bits of one field in place changes that field by the same bits and no other. */
  lemma InPlace(mask: Word, value: Word, w: Word, other: Word)
    requires Fits(mask, value) && Disjoint(mask, other)
    ensures Right(mask, Or(w, Left(mask, value))) == Or(Right(mask, w), value)
    ensures Right(mask, And(w, Not(Left(mask, value)))) == And(Right(mask, w), Not(value))
    ensures Right(other, Or(w, Left(mask, value))) == Right(other, w) == Right(other, And(w, Not(Left(mask, value))))
  {
    hide Left, Right, And, Or, Not;
    var n := Low(mask, 0);
    var l := Left(mask, value);
    forall k | 0 <= k < 32
      ensures Right(mask, Or(w, l))[k] == Or(Right(mask, w), value)[k]
      ensures Right(mask, And(w, Not(l)))[k] == And(Right(mask, w), Not(value))[k]
    {
      RightBit(mask, w, k);
      RightBit(mask, Or(w, l), k);
      RightBit(mask, And(w, Not(l)), k);
      OrBit(Right(mask, w), value, k);
      AndNotBit(Right(mask, w), value, k);
      if k + n < 32 {
        LeftBit(mask, value, k + n);
        OrBit(w, l, k + n);
        AndNotBit(w, l, k + n);
      }
    }
    forall k | 0 <= k < 32
      ensures And(Or(w, l), other)[k] == And(w, other)[k] == And(And(w, Not(l)), other)[k]
    {
      LeftBit(mask, value, k);
      OrBit(w, l, k);
      AndNotBit(w, l, k);
      AndBit(Or(w, l), other, k);
      AndBit(w, other, k);
      AndBit(And(w, Not(l)), other, k);
    }
    RightSees(other, Or(w, l), w);
    RightSees(other, And(w, Not(l)), w);
  }

  lemma OrBit(a: Word, b: Word, k: nat)
    requires k < 32
    ensures Or(a, b)[k] <==> a[k] || b[k]
  {
  }

  lemma AndNotBit(a: Word, b: Word, k: nat)
    requires k < 32
    ensures And(a, Not(b))[k] <==> a[k] && !b[k]
  {
  }

  /** The bus bit of a slot's configuration, as connects set it and disconnects clear it. */
  lemma BusBitInPlace(h: HwConfig)
    ensures var c := HardToConfig(h);
            && HardToConfig(h.(config := Or(h.config, Left(ON_ZERO, ON_ZERO_BUS)))) == c.(onZero := Or(c.onZero, ON_ZERO_BUS))
            && HardToConfig(h.(config := And(h.config, Not(Left(ON_ZERO, ON_ZERO_BUS)))))
               == c.(onZero := And(c.onZero, Not(ON_ZERO_BUS)))
  {
    hide Left, Right, Or, And, Not;
    assert ON_ZERO[30] && ON_ZERO_BUS[0];
    InPlace(ON_ZERO, ON_ZERO_BUS, h.config, START);
    InPlace(ON_ZERO, ON_ZERO_BUS, h.config, MODE);
    InPlace(ON_ZERO, ON_ZERO_BUS, h.config, CLOCK);
    InPlace(ON_ZERO, ON_ZERO_BUS, h.config, PULSE_WIDTH);
  }
}
