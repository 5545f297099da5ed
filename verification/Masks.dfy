/** Bit masks of registers (register.go) and the masked write of target.go. */
module Masks {
  import opened Wire
  import opened Bits
  import opened Devices

  datatype Mask = Mask(value: Bits32, shift: nat)

  datatype Register = Register(name: string, addr: Word, masks: map<string, Mask>)

  /** `shift` is the position of the lowest set bit of `value`, or 0 if it has none. */
  ghost predicate Lowest(value: Bits32, shift: nat) {
    if value == Zero() then shift == 0
    else shift < 32 && value[shift] && forall k :: 0 <= k < shift ==> !value[k]
  }

  method NewMask(value: Bits32) returns (m: Mask)
    ensures m.value == value && Lowest(value, m.shift)
  {
    var shift := 0;
    for i := 0 to 32
      invariant shift == 0
      invariant forall k :: 0 <= k < i ==> !value[k]
    {
      var test := Shl(ToBits(1), i);
      assert forall k :: 0 <= k < 32 ==> test[k] == (k == i) by { OneBit(); }
      if And(test, value) != Zero() {
        assert value[i];
        shift := i;
        return Mask(value, shift);
      }
      assert !And(test, value)[i];
    }
    assert value == Zero();
    m := Mask(value, shift);
  }

  lemma OneBit()
    ensures ToBits(1)[0] && forall k :: 0 < k < 32 ==> !ToBits(1)[k]
  {
    ExpandOne(1, 32);
  }

  lemma ExpandOne(w: nat, n: nat)
    requires w == 1 && n > 0
    ensures Expand(w, n)[0] && forall k :: 0 < k < n ==> !Expand(w, n)[k]
  {
    ExpandZero(n - 1);
    assert w / 2 == 0;
    assert Expand(w, n) == [true] + Expand(0, n - 1);
  }

  lemma {:induction false} ExpandZero(n: nat)
    ensures forall k :: 0 <= k < n ==> !Expand(0, n)[k]
  {
    if n != 0 {
      ExpandZero(n - 1);
    }
  }

  function ReadMask(r: Register, mask: string, val: Bits32): Option<Bits32> {
    if mask !in r.masks then None
    else
      var m := r.masks[mask];
      Some(Shr(And(val, m.value), m.shift))
  }

  /** The and-term and or-term of a write to the masked bits. */
  function WriteMask(r: Register, mask: string, val: Bits32): Option<(Bits32, Bits32)> {
    if mask !in r.masks then None
    else
      var m := r.masks[mask];
      Some((Not(m.value), And(Shl(val, m.shift), m.value)))
  }

  /** The terms MaskedWrite sends: its or-term is not cut to the mask. */
  function MaskedWrite(r: Register, mask: string, val: Bits32): Option<(Bits32, Bits32)> {
    if mask !in r.masks then None
    else
      var m := r.masks[mask];
      Some((Not(m.value), Shl(val, m.shift)))
  }

  /** The register after a read-modify-write: x = (x & and) | or. */
  function Applied(x: Bits32, terms: (Bits32, Bits32)): Bits32 {
    Or(And(x, terms.0), terms.1)
  }

  // ----- writing a field and reading it back -----

  /** Whatever the register held, the bits outside the mask keep their value and the field reads back
      as the value written, cut to the field. */
  lemma WriteThenRead(r: Register, mask: string, x: Bits32, val: Bits32)
    requires mask in r.masks && Lowest(r.masks[mask].value, r.masks[mask].shift)
    ensures var m, y := r.masks[mask], Applied(x, WriteMask(r, mask, val).value);
            && And(y, Not(m.value)) == And(x, Not(m.value))
            && ReadMask(r, mask, y) == Some(And(val, Shr(m.value, m.shift)))
  {
    var m, y := r.masks[mask], Applied(x, WriteMask(r, mask, val).value);
    assert And(y, Not(m.value)) == And(x, Not(m.value));
    var got, want := Shr(And(y, m.value), m.shift), And(val, Shr(m.value, m.shift));
    assert forall i :: 0 <= i < 32 ==> got[i] == want[i];
    assert got == want;
  }

  /** A mask without gaps: `width` bits from its lowest bit on. */
  ghost predicate Contiguous(m: Mask, width: nat) {
    m.shift + width <= 32 && forall i :: 0 <= i < 32 ==> (m.value[i] <==> m.shift <= i < m.shift + width)
  }

  /** A field of `width` bits reads back as the value written modulo 2^width. */
  lemma FieldReadsBack(r: Register, mask: string, width: nat, x: Bits32, val: Bits32)
    requires mask in r.masks && width > 0 && Contiguous(r.masks[mask], width)
    ensures Lowest(r.masks[mask].value, r.masks[mask].shift)
    ensures var back := ReadMask(r, mask, Applied(x, WriteMask(r, mask, val).value));
            && back.Some? && Value(back.value) == Value(val) % Pow2(width)
            && (back.value == val <==> Value(val) < Pow2(width))
  {
    var m := r.masks[mask];
    assert m.value[m.shift];
    WriteThenRead(r, mask, x, val);
    var back := And(val, Shr(m.value, m.shift));
    assert back == val[..width] + seq(32 - width, _ => false);
    ValueLow(val, width);
    LowSame(val, back, width);
  }

  lemma LowSame(val: Bits32, back: Bits32, width: nat)
    requires Value(back) == Value(val) % Pow2(width)
    ensures back == val <==> Value(val) < Pow2(width)
  {
    if Value(val) < Pow2(width) {
      ModUnique(Value(val), Pow2(width), 0, Value(val));
      ExpandValue(val);
      ExpandValue(back);
    }
  }

  // ----- MaskedWrite -----

  /** The bits a value would set outside the mask. */
  function Excess(m: Mask, val: Bits32): Bits32 {
    And(Shl(val, m.shift), Not(m.value))
  }

  /** On a register holding `x`, MaskedWrite and WriteMask differ exactly when the shifted value has
      a bit outside the mask that `x` does not have. */
  lemma MaskedWriteAgrees(r: Register, mask: string, x: Bits32, val: Bits32)
    requires mask in r.masks
    ensures Applied(x, MaskedWrite(r, mask, val).value) == Applied(x, WriteMask(r, mask, val).value) <==>
            And(Excess(r.masks[mask], val), Not(x)) == Zero()
  {
    var a := Applied(x, MaskedWrite(r, mask, val).value);
    var b := Applied(x, WriteMask(r, mask, val).value);
    var e := And(Excess(r.masks[mask], val), Not(x));
    assert forall i :: 0 <= i < 32 ==> (a[i] == b[i] <==> !e[i]);
    if a == b {
      assert e == Zero();
    }
  }

  /** MaskedWrite leaves the other bits alone on every register content exactly when the shifted
      value lies inside the mask. */
  lemma MaskedWriteKeepsOthers(r: Register, mask: string, val: Bits32)
    requires mask in r.masks
    ensures var m := r.masks[mask];
            (forall x: Bits32 :: And(Applied(x, MaskedWrite(r, mask, val).value), Not(m.value)) == And(x, Not(m.value)))
            <==> Excess(m, val) == Zero()
  {
    var m := r.masks[mask];
    var terms := MaskedWrite(r, mask, val).value;
    if forall x: Bits32 :: And(Applied(x, terms), Not(m.value)) == And(x, Not(m.value)) {
      assert And(Applied(Zero(), terms), Not(m.value)) == And(Zero(), Not(m.value));
      forall i | 0 <= i < 32
        ensures Excess(m, val)[i] == Zero()[i]
      {
        assert And(Applied(Zero(), terms), Not(m.value))[i] == And(Zero(), Not(m.value))[i];
      }
      assert Excess(m, val) == Zero();
    } else {
      var x: Bits32 :| And(Applied(x, terms), Not(m.value)) != And(x, Not(m.value));
      var i :| 0 <= i < 32 && And(Applied(x, terms), Not(m.value))[i] != And(x, Not(m.value))[i];
      assert Excess(m, val)[i];
    }
  }

  /** The and-term and or-term as the two input words of an RMWbits request. */
  function Terms(terms: (Bits32, Bits32)): seq<Word> {
    [FromBits(terms.0), FromBits(terms.1)]
  }

  /** Carried out by a device as one RMWbits operation, the terms of a masked write return the old
      word and leave the register as Applied says. */
  lemma MaskedWriteOnDevice<D>(dev: Device<D>, d: D, r: Register, mask: string, val: Bits32)
    requires mask in r.masks
    ensures var terms := MaskedWrite(r, mask, val).value;
            var (d1, x) := dev.read(d, r.addr);
            Operate(dev, d, RMW_BITS, 1, r.addr, Terms(terms)) ==
              (dev.write(d1, r.addr, FromBits(Applied(ToBits(x), terms))), [x])
  {
    var terms := MaskedWrite(r, mask, val).value;
    WordBits(0, terms.0);
    WordBits(0, terms.1);
  }
}
