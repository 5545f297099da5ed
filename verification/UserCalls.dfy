/** The calls of target.go, and what they mean on a plain memory of 2^32 words. */
module UserCalls {
  import opened Wire
  import opened Bits
  import opened Packets
  import opened Packer
  import opened Devices

  /** What a call uses of a register. */
  datatype Reg = Reg(addr: Word, noninc: bool)

  function Read(reg: Reg, nword: nat, resp: nat): UserRequest {
    UserRequest(if reg.noninc then READ_NON_INC else READ, nword, reg.addr, [], resp, false, false)
  }

  function ReadB(reg: Reg, nword: nat, resp: nat): UserRequest {
    UserRequest(if reg.noninc then READ_NON_INC else READ, nword, reg.addr, [], resp, true, false)
  }

  function Write(reg: Reg, data: seq<Word>, resp: nat): UserRequest {
    UserRequest(if reg.noninc then WRITE_NON_INC else WRITE, |data|, reg.addr, data, resp, false, false)
  }

  function RMWbits(reg: Reg, andterm: Word, orterm: Word, resp: nat): UserRequest {
    UserRequest(RMW_BITS, 1, reg.addr, [andterm, orterm], resp, false, false)
  }

  function RMWsum(reg: Reg, addend: Word, resp: nat): UserRequest {
    UserRequest(RMW_SUM, 1, reg.addr, [addend], resp, false, false)
  }

  function Dispatch(): UserRequest {
    UserRequest(0, 0, 0, [], 0, false, true)
  }

  /** The calls are what the packer expects, with the type numbers of the protocol. */
  lemma CallTypes(reg: Reg, n: nat, data: seq<Word>, a: Word, b: Word, resp: nat)
    ensures Proper(Read(reg, n, resp)) && Read(reg, n, resp).typeid == if reg.noninc then 2 else 0
    ensures Proper(ReadB(reg, n, resp)) && ReadB(reg, n, resp).typeid == if reg.noninc then 2 else 0
    ensures Proper(Write(reg, data, resp)) && Write(reg, data, resp).typeid == if reg.noninc then 3 else 1
    ensures Proper(RMWbits(reg, a, b, resp)) && RMWbits(reg, a, b, resp).typeid == 4
    ensures Proper(RMWsum(reg, a, resp)) && RMWsum(reg, a, resp).typeid == 5
    ensures Proper(Dispatch())
  {
  }

  // ----- a plain memory -----

  type Mem = Word -> Word

  function Memory(): Device<Mem> {
    Device((m: Mem, a) => (m, m(a)), (m: Mem, a: Word, w: Word) => (x: Word) => if x == a then w else m(x))
  }

  /** The i-th address of an operation. */
  function At(addr: Word, inc: bool, i: nat): Word {
    if inc then (addr + i) % 0x1_0000_0000 else addr
  }

  lemma AtNext(addr: Word, inc: bool, i: nat)
    requires i > 0
    ensures At(Move(addr, inc, 1), inc, i - 1) == At(addr, inc, i) && Move(addr, inc, 1) == At(addr, inc, 1)
  {
    ModAdd(addr, 1, i - 1);
  }

  lemma {:induction false} ReadMemory(m: Mem, addr: Word, inc: bool, n: nat)
    ensures var (m1, ws) := ReadRun(Memory(), m, addr, inc, n);
            m1 == m && |ws| == n && forall i :: 0 <= i < n ==> ws[i] == m(At(addr, inc, i))
    decreases n
  {
    if n > 0 {
      var next := Move(addr, inc, 1);
      ReadMemory(m, next, inc, n - 1);
      var rest := ReadRun(Memory(), m, next, inc, n - 1).1;
      var ws := ReadRun(Memory(), m, addr, inc, n).1;
      assert ws == [m(addr)] + rest;
      forall i | 0 <= i < n
        ensures ws[i] == m(At(addr, inc, i))
      {
        if i > 0 {
          AtNext(addr, inc, i);
          assert rest[i - 1] == m(At(next, inc, i - 1));
        }
      }
    }
  }

  /** Read and ReadB return the words from the address on, or the same word's successive values. */
  lemma ReadMeans(m: Mem, reg: Reg, n: nat, resp: nat)
    ensures Unsplit(Memory(), m, ReadB(reg, n, resp)) == Unsplit(Memory(), m, Read(reg, n, resp))
    ensures var (m1, ws) := Unsplit(Memory(), m, Read(reg, n, resp));
            && m1 == m && |ws| == n
            && forall i :: 0 <= i < n ==> ws[i] == m(if reg.noninc then reg.addr else (reg.addr + i) % 0x1_0000_0000)
  {
    ReadMemory(m, reg.addr, !reg.noninc, n);
    assert Operate(Memory(), m, Read(reg, n, resp).typeid, n, reg.addr, []) ==
           ReadRun(Memory(), m, reg.addr, !reg.noninc, n);
  }

  /** Within one turn of the address space no address comes twice. */
  lemma Apart(addr: Word, i: nat)
    requires 0 < i < 0x1_0000_0000
    ensures (addr + i) % 0x1_0000_0000 != addr
  {
    if addr + i >= 0x1_0000_0000 {
      assert (addr + i) % 0x1_0000_0000 == addr + i - 0x1_0000_0000;
    }
  }

  /** `m1` is `m` with the words `ws` from `addr` on. */
  ghost predicate Stored(m: Mem, addr: Word, ws: seq<Word>, m1: Mem) {
    && (forall i :: 0 <= i < |ws| ==> m1(At(addr, true, i)) == ws[i])
    && (forall x :: (forall i :: 0 <= i < |ws| ==> x != At(addr, true, i)) ==> m1(x) == m(x))
  }

  lemma StoredFirst(m: Mem, addr: Word, ws: seq<Word>, m0: Mem, m1: Mem)
    requires ws != [] && |ws| <= 0x1_0000_0000
    requires forall x :: m0(x) == if x == addr then ws[0] else m(x)
    requires Stored(m0, At(addr, true, 1), ws[1..], m1)
    ensures Stored(m, addr, ws, m1)
  {
    var next := At(addr, true, 1);
    forall i | 0 <= i < |ws| - 1
      ensures At(next, true, i) == At(addr, true, i + 1) && At(next, true, i) != addr
    {
      AtNext(addr, true, i + 1);
      Apart(addr, i + 1);
    }
    forall i | 0 <= i < |ws|
      ensures m1(At(addr, true, i)) == ws[i]
    {
      if i > 0 {
        assert ws[1..][i - 1] == ws[i] && At(next, true, i - 1) == At(addr, true, i);
      } else {
        assert At(addr, true, 0) == addr;
      }
    }
    forall x | forall i :: 0 <= i < |ws| ==> x != At(addr, true, i)
      ensures m1(x) == m(x)
    {
      assert x != At(addr, true, 0) == addr;
      forall i | 0 <= i < |ws| - 1
        ensures x != At(next, true, i)
      {
        assert x != At(addr, true, i + 1);
      }
      assert m0(x) == m(x);
    }
  }

  lemma {:induction false} WriteMemory(m: Mem, addr: Word, ws: seq<Word>)
    requires |ws| <= 0x1_0000_0000
    ensures Stored(m, addr, ws, WriteRun(Memory(), m, addr, true, ws))
    decreases |ws|
  {
    if ws != [] {
      var m0 := Memory().write(m, addr, ws[0]);
      var next := Move(addr, true, 1);
      AtNext(addr, true, 1);
      WriteMemory(m0, next, ws[1..]);
      StoredFirst(m, addr, ws, m0, WriteRun(Memory(), m0, next, true, ws[1..]));
    }
  }

  lemma {:induction false} WritePort(m: Mem, addr: Word, ws: seq<Word>)
    ensures var m1 := WriteRun(Memory(), m, addr, false, ws);
            forall x :: m1(x) == if x == addr && ws != [] then ws[|ws| - 1] else m(x)
    decreases |ws|
  {
    if ws != [] {
      var m0, rest := Memory().write(m, addr, ws[0]), ws[1..];
      WritePort(m0, addr, rest);
      assert rest != [] ==> rest[|rest| - 1] == ws[|ws| - 1];
      assert rest == [] ==> ws[|ws| - 1] == ws[0];
      assert forall x :: m0(x) == if x == addr then ws[0] else m(x);
      assert WriteRun(Memory(), m, addr, false, ws) == WriteRun(Memory(), m0, addr, false, rest);
    }
  }

  /** Write stores the words from the address on and leaves all others alone; without incrementing, the
      last word stays at the address. It returns no words. */
  lemma WriteMeans(m: Mem, reg: Reg, data: seq<Word>, resp: nat)
    requires |data| <= 0x1_0000_0000
    ensures var (m1, ws) := Unsplit(Memory(), m, Write(reg, data, resp));
            && ws == []
            && (!reg.noninc ==> Stored(m, reg.addr, data, m1))
            && (reg.noninc ==> forall x :: m1(x) == if x == reg.addr && data != [] then data[|data| - 1] else m(x))
  {
    WriteMemory(m, reg.addr, data);
    WritePort(m, reg.addr, data);
    var req := Write(reg, data, resp);
    assert Operate(Memory(), m, req.typeid, Words(req), reg.addr, data) ==
           (WriteRun(Memory(), m, reg.addr, !reg.noninc, data), []);
  }

  // ----- read-modify-writes -----

  lemma {:induction false} BitOf(w: nat, n: nat, k: nat)
    requires k < n
    ensures Expand(w, n)[k] <==> w / Pow2(k) % 2 == 1
    decreases k
  {
    if k > 0 {
      BitOf(w / 2, n - 1, k - 1);
      DivTwice(w, Pow2(k - 1));
    }
  }

  lemma DivTwice(w: nat, p: nat)
    requires p > 0
    ensures w / 2 / p == w / (2 * p)
  {
    var q, r := w / 2 / p, w / 2 % p;
    assert w / 2 == q * p + r;
    var s := 2 * r + w % 2;
    assert w == q * (2 * p) + s && 0 <= s < 2 * p;
    QuotientIs(w, 2 * p, q, s);
  }

  lemma QuotientIs(w: nat, d: nat, q: nat, s: nat)
    requires d > 0 && w == q * d + s && s < d
    ensures w / d == q
  {
    ModUnique(w, d, q, s);
    assert w == w / d * d + s;
    assert (w / d - q) * d == 0;
  }

  /** Bit k of a word. */
  predicate Bit(w: Word, k: nat) {
    w / Pow2(k) % 2 == 1
  }

  /** RMWbits returns the old word and stores, bit by bit, x and andterm, or orterm. */
  lemma RMWbitsMeans(m: Mem, reg: Reg, andterm: Word, orterm: Word, resp: nat)
    ensures var (m1, ws) := Unsplit(Memory(), m, RMWbits(reg, andterm, orterm, resp));
            && ws == [m(reg.addr)] && (forall x :: x != reg.addr ==> m1(x) == m(x))
            && forall k :: 0 <= k < 32 ==>
                 (Bit(m1(reg.addr), k) <==> (Bit(m(reg.addr), k) && Bit(andterm, k)) || Bit(orterm, k))
  {
    var x := m(reg.addr);
    var y := RmwBits(x, andterm, orterm);
    var bits := Or(And(ToBits(x), ToBits(andterm)), ToBits(orterm));
    WordBits(0, bits);
    forall k | 0 <= k < 32
      ensures Bit(y, k) <==> (Bit(x, k) && Bit(andterm, k)) || Bit(orterm, k)
    {
      BitOf(x, 32, k);
      BitOf(andterm, 32, k);
      BitOf(orterm, 32, k);
      BitOf(y, 32, k);
      assert ToBits(y) == bits;
    }
  }

  /** RMWsum returns the old word and stores the sum modulo 2^32. */
  lemma RMWsumMeans(m: Mem, reg: Reg, addend: Word, resp: nat)
    ensures var (m1, ws) := Unsplit(Memory(), m, RMWsum(reg, addend, resp));
            && ws == [m(reg.addr)]
            && forall x :: m1(x) == if x == reg.addr then (m(x) + addend) % 0x1_0000_0000 else m(x)
  {
  }
}
