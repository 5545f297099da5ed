/** A table with a module, a block, a register and a mask, with the names and numbers it must give. */
module TableSample {
  import opened Wire
  import opened AddressTable
  import opened TableMeaning
  import opened TableExact

  datatype Ids = Ids(top: string, root: string, mod: string, block: string, reg: string, mask: string)

  datatype Places = Places(mod: Word, block: Word, reg: Word)

  predicate GoodIds(ids: Ids) {
    GoodId(ids.mod) && GoodId(ids.block) && GoodId(ids.reg) && GoodId(ids.mask)
  }

  function MaskTags(ids: Ids, bits: Word): seq<Attr> {
    [Id(ids.mask), MaskBits(bits)]
  }

  function RegTags(ids: Ids, at: Places): seq<Attr> {
    [Id(ids.reg), Address(at.reg)]
  }

  function BlockTags(ids: Ids, at: Places, port: bool, size: nat): seq<Attr> {
    [Id(ids.block), Address(at.block), Mode(port), FwInfo(size)]
  }

  function ModuleTags(ids: Ids, at: Places): seq<Attr> {
    [Id(ids.mod), Address(at.mod), ModuleRef]
  }

  function RootTags(ids: Ids, rootsize: nat): seq<Attr> {
    [Id(ids.root), FwInfo(rootsize)]
  }

  function Sample(ids: Ids, at: Places, port: bool, size: nat, rootsize: nat, bits: Word): Doc {
    var reg := RegNode(RegTags(ids, at), [MaskNode(MaskTags(ids, bits))]);
    var inner := Doc(RootTags(ids, rootsize), [B(BlockTags(ids, at, port, size), [reg])]);
    Doc([Id(ids.top)], [M(ModuleTags(ids, at), inner)])
  }

  function SampleRegisters(ids: Ids, at: Places, port: bool, size: nat, rootsize: nat, bits: Word): seq<Register> {
    [Register(ids.mod, at.mod, [], map[], false, rootsize),
     Register(ids.mod + "." + ids.block, (at.mod + at.block) % 0x1_0000_0000, [], map[], port, size),
     Register(ids.mod + "." + ids.block + "." + ids.reg, (at.mod + at.block + at.reg) % 0x1_0000_0000,
              [ids.mask], map[ids.mask := bits], false, 1)]
  }

  // ----- the tags -----

  /** What all the tags here have in common: an id first, then the rest. */
  lemma IdFirst(tag: seq<Attr>, id: string)
    requires tag != [] && tag[0] == Id(id) && Tidy(tag[1..]) && IdOf(tag[1..]) == None
    ensures Tidy(tag) && Name(tag) == id && IdOf(tag) == Some(id)
    ensures AddressOf(tag) == AddressOf(tag[1..]) && ModeOf(tag) == ModeOf(tag[1..]) && KindOf(tag) == KindOf(tag[1..])
  {
  }

  lemma LastAttr(a: Attr)
    ensures var tag := [a];
            && Tidy(tag)
            && IdOf(tag) == (if a.Id? then Some(a.v) else None)
            && AddressOf(tag) == (if a.Address? then Some(a.addr) else None)
            && ModeOf(tag) == (if a.Mode? then Some(a.port) else None)
            && KindOf(tag) == (if GivesKind(a) then Some(a) else None)
  {
    assert [a][1..] == [];
  }

  lemma SampleMask(ids: Ids, bits: Word)
    ensures var tag := MaskTags(ids, bits);
            Tidy(tag) && IdOf(tag) == Some(ids.mask) && KindOf(tag) == Some(MaskBits(bits))
  {
    LastAttr(MaskBits(bits));
    assert MaskTags(ids, bits)[1..] == [MaskBits(bits)];
    IdFirst(MaskTags(ids, bits), ids.mask);
  }

  lemma SampleReg(ids: Ids, at: Places)
    ensures var tag := RegTags(ids, at);
            && Tidy(tag) && IdOf(tag) == Some(ids.reg) && AddressOf(tag) == Some(at.reg)
            && ModeOf(tag) == None && KindOf(tag) == None
  {
    LastAttr(Address(at.reg));
    assert RegTags(ids, at)[1..] == [Address(at.reg)];
    IdFirst(RegTags(ids, at), ids.reg);
  }

  lemma SampleRoot(ids: Ids, rootsize: nat)
    ensures var tag := RootTags(ids, rootsize);
            && Tidy(tag) && IdOf(tag) == Some(ids.root) && AddressOf(tag) == None
            && ModeOf(tag) == None && KindOf(tag) == Some(FwInfo(rootsize))
  {
    LastAttr(FwInfo(rootsize));
    assert RootTags(ids, rootsize)[1..] == [FwInfo(rootsize)];
    IdFirst(RootTags(ids, rootsize), ids.root);
  }

  lemma SampleBlock(ids: Ids, at: Places, port: bool, size: nat)
    ensures var tag := BlockTags(ids, at, port, size);
            && Tidy(tag) && IdOf(tag) == Some(ids.block) && AddressOf(tag) == Some(at.block)
            && ModeOf(tag) == Some(port) && KindOf(tag) == Some(FwInfo(size))
  {
    var tag := BlockTags(ids, at, port, size);
    var last := [Mode(port), FwInfo(size)];
    LastAttr(FwInfo(size));
    assert last[1..] == [FwInfo(size)];
    assert Tidy(last) && ModeOf(last) == Some(port) && KindOf(last) == Some(FwInfo(size));
    assert AddressOf(last) == None && IdOf(last) == None;
    assert tag[1..][1..] == last && tag[1..][0] == Address(at.block);
    assert Tidy(tag[1..]) && IdOf(tag[1..]) == None;
    IdFirst(tag, ids.block);
  }

  // ----- the tree -----

  lemma OneReg(name: string, base: Word, r: RegNode)
    ensures RegsOf(name, base, [r]) == [RegOf(name, base, r)]
    ensures GoodRegs([r]) <==> GoodReg(r)
  {
    assert [r][1..] == [];
    var none := RegsOf(name, base, []);
    assert none == [];
  }

  /** The register with its mask. */
  lemma SampleRegister(ids: Ids, at: Places, bits: Word, name: string, base: Word) returns (r: RegNode)
    requires GoodIds(ids) && name != ""
    ensures r == RegNode(RegTags(ids, at), [MaskNode(MaskTags(ids, bits))]) && GoodReg(r)
    ensures RegOf(name, base, r) ==
            Register(name + "." + ids.reg, (base + at.reg) % 0x1_0000_0000, [ids.mask], map[ids.mask := bits], false, 1)
  {
    r := RegNode(RegTags(ids, at), [MaskNode(MaskTags(ids, bits))]);
    SampleReg(ids, at);
    SampleMask(ids, bits);
    assert GoodMask(r.masks[0]);
    var plain := PlainReg(name + "." + ids.reg, (base + at.reg) % 0x1_0000_0000, r.tag);
    assert r.masks[1..] == [];
    var masked := plain.(maskNames := plain.maskNames + [ids.mask], masks := plain.masks[ids.mask := bits]);
    assert WithMasks(plain, r.masks) == WithMasks(masked, r.masks[1..]) == masked;
  }

  lemma SumOf(a: Word, b: Word, c: Word)
    ensures Plus(Plus(b, a), c) == (a + b + c) % 0x1_0000_0000
  {
  }

  /** The block with its register. */
  lemma SampleItem(ids: Ids, at: Places, port: bool, size: nat, bits: Word) returns (it: Item)
    requires GoodIds(ids)
    ensures it == B(BlockTags(ids, at, port, size), [RegNode(RegTags(ids, at), [MaskNode(MaskTags(ids, bits))])])
    ensures GoodItem(it)
    ensures ItemEntries(it, ids.mod, at.mod) == SampleRegisters(ids, at, port, size, 0, bits)[1..]
  {
    var full, start := ids.mod + "." + ids.block, Plus(at.block, at.mod);
    var r := SampleRegister(ids, at, bits, full, start);
    it := B(BlockTags(ids, at, port, size), [r]);
    SampleBlock(ids, at, port, size);
    OneReg(full, start, r);
    SumOf(at.mod, at.block, at.reg);
    assert ItemEntries(it, ids.mod, at.mod) == [BlockReg(full, start, it.tag)] + [RegOf(full, start, r)];
  }

  /** The nested file. */
  lemma SampleInner(ids: Ids, at: Places, port: bool, size: nat, rootsize: nat, bits: Word) returns (inner: Doc)
    requires GoodIds(ids)
    ensures inner == Sample(ids, at, port, size, rootsize, bits).items[0].doc
    ensures GoodDoc(inner) && DocExact(inner, true)
    ensures Entries(inner, ids.mod, at.mod) == SampleRegisters(ids, at, port, size, rootsize, bits)
  {
    var it := SampleItem(ids, at, port, size, bits);
    inner := Doc(RootTags(ids, rootsize), [it]);
    SampleRoot(ids, rootsize);
    PlusSame(at.mod, 0, 0);
    OneItem(it, ids.mod, 0, 0, at.mod);
    assert inner.items[1..] == [];
    assert Entries(inner, ids.mod, at.mod) ==
           [BlockReg(ids.mod, at.mod, inner.tag)] + ItemEntries(it, ids.mod, at.mod);
  }

  /** The whole file. */
  lemma SampleDoc(ids: Ids, at: Places, port: bool, size: nat, rootsize: nat, bits: Word) returns (doc: Doc)
    requires GoodIds(ids)
    ensures doc == Sample(ids, at, port, size, rootsize, bits)
    ensures GoodDoc(doc) && DocExact(doc, false)
    ensures Entries(doc, "", 0) == SampleRegisters(ids, at, port, size, rootsize, bits)
  {
    doc := Sample(ids, at, port, size, rootsize, bits);
    var inner := SampleInner(ids, at, port, size, rootsize, bits);
    var it := doc.items[0];
    OneId(ids.top);
    OneModule(ids.mod, at.mod);
    PlusSame(at.mod, 0, 0);
    OneItem(it, "", 0, 0, 0);
    assert doc.items == [it] && [it][1..] == [];
  }

  lemma SampleNames(ids: Ids, at: Places, port: bool, size: nat, rootsize: nat, bits: Word)
    requires GoodIds(ids)
    ensures DistinctNames(SampleRegisters(ids, at, port, size, rootsize, bits))
  {
    var es := SampleRegisters(ids, at, port, size, rootsize, bits);
    assert 0 < |es[0].name| < |es[1].name| < |es[2].name|;
  }

  /** Whatever the ids, addresses, sizes and masks are: the file is read to its end, and the table holds
      these three registers and no other. The root's own id, and that of the top, are in no name. */
  lemma SampleTable(ids: Ids, at: Places, port: bool, size: nat, rootsize: nat, bits: Word)
    requires GoodIds(ids)
    ensures var es := SampleRegisters(ids, at, port, size, rootsize, bits);
            var (status, regs) := ParseFile(EmitFile(Sample(ids, at, port, size, rootsize, bits)), "", 0, map[]);
            && status == Complete
            && Clean(regs) == map[es[0].name := es[0], es[1].name := es[1], es[2].name := es[2]]
  {
    var es := SampleRegisters(ids, at, port, size, rootsize, bits);
    var doc := SampleDoc(ids, at, port, size, rootsize, bits);
    SampleNames(ids, at, port, size, rootsize, bits);
    ThreeAdded(es);
    DocTable(doc, es);
  }

  lemma DocTable(doc: Doc, es: seq<Register>)
    requires GoodDoc(doc) && DocExact(doc, false) && Entries(doc, "", 0) == es && DistinctNames(es)
    ensures var (status, regs) := ParseFile(EmitFile(doc), "", 0, map[]);
            status == Complete && Clean(regs) == AddAll(map[], es)
  {
    DocFound(doc, "", 0);
    TableIff(doc);
  }

  lemma ThreeAdded(es: seq<Register>)
    requires |es| == 3
    ensures AddAll(map[], es) == map[es[0].name := es[0]][es[1].name := es[1]][es[2].name := es[2]]
  {
    var m1, rest := map[es[0].name := es[0]], es[1..];
    var m2, last := m1[es[1].name := es[1]], rest[1..];
    assert rest[0] == es[1] && last[0] == es[2] && last[1..] == [];
    var none: Regs := map[];
    assert none[es[0].name := es[0]] == m1;
    assert AddAll(none, es) == AddAll(m1, rest) == AddAll(m2, last);
    assert AddAll(m2[es[2].name := es[2]], last[1..]) == m2[es[2].name := es[2]];
  }
}
