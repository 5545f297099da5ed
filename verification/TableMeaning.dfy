/** What an address table means as a tree, what the streaming walk makes of it, and exactly when the
  * two agree. */
module TableMeaning {
  import opened Wire
  import opened AddressTable

  // ----- files as trees -----

  /** Every node carries the attributes of its tag as they stand in the file. */
  datatype MaskNode = MaskNode(tag: seq<Attr>)

  datatype RegNode = RegNode(tag: seq<Attr>, masks: seq<MaskNode>)

  /** Below the root of a file: a register, a block of registers, or another file. */
  datatype Item =
    | R(reg: RegNode)
    | B(tag: seq<Attr>, regs: seq<RegNode>)
    | M(tag: seq<Attr>, doc: Doc)

  datatype Doc = Doc(tag: seq<Attr>, items: seq<Item>)

  // ----- their tags -----

  function EmitMasks(masks: seq<MaskNode>): seq<Token> {
    if masks == [] then [] else [Start(masks[0].tag, Missing), End] + EmitMasks(masks[1..])
  }

  function EmitReg(r: RegNode): seq<Token> {
    [Start(r.tag, Missing)] + EmitMasks(r.masks) + [End]
  }

  function EmitRegs(rs: seq<RegNode>): seq<Token> {
    if rs == [] then [] else EmitReg(rs[0]) + EmitRegs(rs[1..])
  }

  function EmitItem(it: Item): seq<Token>
    decreases it, 0
  {
    match it
    case R(r) => EmitReg(r)
    case B(tag, regs) => [Start(tag, Missing)] + EmitRegs(regs) + [End]
    case M(tag, doc) => [Start(tag, EmitFile(doc)), End]
  }

  function EmitItems(items: seq<Item>): seq<Token>
    decreases items, 0
  {
    if items == [] then [] else EmitItem(items[0]) + EmitItems(items[1..])
  }

  function EmitFile(doc: Doc): File
    decreases doc, 0
  {
    File([Start(doc.tag, Missing)] + EmitItems(doc.items) + [End])
  }

  // ----- what a tag says, in whatever order its attributes stand -----

  function IdOf(tag: seq<Attr>): Option<string> {
    if tag == [] then None else if tag[0].Id? then Some(tag[0].v) else IdOf(tag[1..])
  }

  function AddressOf(tag: seq<Attr>): Option<Word> {
    if tag == [] then None else if tag[0].Address? then Some(tag[0].addr) else AddressOf(tag[1..])
  }

  function ModeOf(tag: seq<Attr>): Option<bool> {
    if tag == [] then None else if tag[0].Mode? then Some(tag[0].port) else ModeOf(tag[1..])
  }

  predicate GivesKind(a: Attr) {
    a.MaskBits? || a.ModuleRef? || a.FwInfo?
  }

  /** The attribute that makes a tag a mask, a module or a block. */
  function KindOf(tag: seq<Attr>): (kind: Option<Attr>)
    ensures kind.Some? ==> GivesKind(kind.value)
  {
    if tag == [] then None else if GivesKind(tag[0]) then Some(tag[0]) else KindOf(tag[1..])
  }

  function Name(tag: seq<Attr>): string {
    IdOf(tag).UnwrapOr("")
  }

  function Addr(tag: seq<Attr>): Word {
    AddressOf(tag).UnwrapOr(0)
  }

  function Port(tag: seq<Attr>): bool {
    ModeOf(tag).UnwrapOr(false)
  }

  predicate IsBlockTag(tag: seq<Attr>) {
    KindOf(tag).Some? && KindOf(tag).value.FwInfo?
  }

  function Size(tag: seq<Attr>): nat {
    if IsBlockTag(tag) then KindOf(tag).value.size else 0
  }

  function Bits(tag: seq<Attr>): Word {
    if KindOf(tag).Some? && KindOf(tag).value.MaskBits? then KindOf(tag).value.mask else 0
  }

  /** At most one id, one address, one mode and one attribute that gives the kind; any others. */
  predicate Tidy(tag: seq<Attr>) {
    tag != [] ==>
      && Tidy(tag[1..])
      && (tag[0].Id? ==> IdOf(tag[1..]).None?)
      && (tag[0].Address? ==> AddressOf(tag[1..]).None?)
      && (tag[0].Mode? ==> ModeOf(tag[1..]).None?)
      && (GivesKind(tag[0]) ==> KindOf(tag[1..]).None?)
  }

  /** What the attribute loop collects from a tidy tag. */
  function Reading(t: Tag, tag: seq<Attr>): Tag {
    var read := t.(name := if t.toplevel || IdOf(tag).None? then t.name else Push(t.name, Name(tag)),
                   toplevel := t.toplevel && IdOf(tag).None?,
                   localaddr := AddressOf(tag).UnwrapOr(t.localaddr),
                   port := ModeOf(tag).UnwrapOr(t.port));
    match KindOf(tag)
    case None => read
    case Some(a) => ReadAttr(read, a)
  }

  /** The attribute loop collects the same from a tidy tag in any order. */
  lemma {:induction false} ReadTidy(t: Tag, tag: seq<Attr>)
    requires Tidy(tag) && (t.toplevel || IdOf(tag) != Some("TOP"))
    ensures ReadAttrs(t, tag) == Reading(t, tag)
    decreases |tag|
  {
    if tag != [] {
      ReadTidy(ReadAttr(t, tag[0]), tag[1..]);
    }
  }

  // ----- well-formed trees -----

  predicate GoodId(v: string) {
    v != "" && v != "TOP" && DotFree(v)
  }

  predicate Named(tag: seq<Attr>) {
    Tidy(tag) && IdOf(tag).Some? && GoodId(Name(tag))
  }

  predicate GoodMask(m: MaskNode) {
    Named(m.tag) && KindOf(m.tag).Some? && KindOf(m.tag).value.MaskBits?
  }

  predicate GoodReg(r: RegNode) {
    && Named(r.tag) && AddressOf(r.tag).Some? && KindOf(r.tag).None?
    && forall i :: 0 <= i < |r.masks| ==> GoodMask(r.masks[i])
  }

  predicate GoodRegs(rs: seq<RegNode>) {
    forall i :: 0 <= i < |rs| ==> GoodReg(rs[i])
  }

  predicate GoodItem(it: Item)
    decreases it, 0
  {
    match it
    case R(r) => GoodReg(r)
    case B(tag, regs) => Named(tag) && AddressOf(tag).Some? && IsBlockTag(tag) && GoodRegs(regs)
    case M(tag, doc) => Named(tag) && AddressOf(tag).Some? && KindOf(tag) == Some(ModuleRef) && GoodDoc(doc)
  }

  predicate GoodItems(items: seq<Item>)
    decreases items, 0
  {
    items != [] ==> GoodItem(items[0]) && GoodItems(items[1..])
  }

  /** The root has an id of any kind, may have an address, and may be a block. */
  predicate GoodDoc(doc: Doc)
    decreases doc, 0
  {
    && Tidy(doc.tag) && IdOf(doc.tag).Some? && (KindOf(doc.tag).None? || IsBlockTag(doc.tag))
    && GoodItems(doc.items)
  }

  // ----- their meaning -----

  function WithMasks(r: Register, masks: seq<MaskNode>): Register
    decreases |masks|
  {
    if masks == [] then r
    else
      var name, bits := Name(masks[0].tag), Bits(masks[0].tag);
      WithMasks(r.(maskNames := r.maskNames + [name], masks := r.masks[name := bits]), masks[1..])
  }

  function PlainReg(name: string, addr: Word, tag: seq<Attr>): Register {
    Register(name, addr, [], map[], Port(tag), 1)
  }

  function BlockReg(name: string, addr: Word, tag: seq<Attr>): Register {
    Register(name, addr, [], map[], Port(tag), Size(tag))
  }

  function RegOf(name: string, base: Word, r: RegNode): Register {
    WithMasks(PlainReg(Push(name, Name(r.tag)), Plus(base, Addr(r.tag)), r.tag), r.masks)
  }

  function RegsOf(name: string, base: Word, rs: seq<RegNode>): seq<Register> {
    if rs == [] then [] else [RegOf(name, base, rs[0])] + RegsOf(name, base, rs[1..])
  }

  function BlockOf(name: string, base: Word, tag: seq<Attr>, regs: seq<RegNode>): seq<Register> {
    var full, start := Push(name, Name(tag)), Plus(Addr(tag), base);
    [BlockReg(full, start, tag)] + RegsOf(full, start, regs)
  }

  /** The registers of an item: addresses add up along the path from the top, and names are the ids
      on that path, joined by dots. */
  function ItemEntries(it: Item, name: string, base: Word): seq<Register>
    decreases it, 0
  {
    match it
    case R(r) => [RegOf(name, base, r)]
    case B(tag, regs) => BlockOf(name, base, tag, regs)
    case M(tag, doc) => Entries(doc, Push(name, Name(tag)), Plus(Addr(tag), base))
  }

  function ItemsEntries(items: seq<Item>, name: string, base: Word): seq<Register>
    decreases items, 0
  {
    if items == [] then [] else ItemEntries(items[0], name, base) + ItemsEntries(items[1..], name, base)
  }

  /** A file's root block has the name the file was given; a file without a name has no root register. */
  function Entries(doc: Doc, name: string, filebase: Word): seq<Register>
    decreases doc, 0
  {
    var base := Plus(Addr(doc.tag), filebase);
    (if IsBlockTag(doc.tag) && name != "" then [BlockReg(name, base, doc.tag)] else [])
    + ItemsEntries(doc.items, name, base)
  }

  // ----- what the walk finds -----

  /** The base the walk goes on with: that of the block that started last. */
  function NextBase(it: Item, cur: Word, filebase: Word): Word {
    if it.B? then Plus(Addr(it.tag), filebase) else cur
  }

  /** Registers directly below a root count from `cur`, blocks and modules from the file. */
  function FoundItem(it: Item, name: string, cur: Word, filebase: Word): seq<Register>
    decreases it, 0
  {
    match it
    case R(r) => [RegOf(name, cur, r)]
    case B(tag, regs) => BlockOf(name, filebase, tag, regs)
    case M(tag, doc) => Found(doc, Push(name, Name(tag)), Plus(Addr(tag), filebase))
  }

  function FoundItems(items: seq<Item>, name: string, cur: Word, filebase: Word): seq<Register>
    decreases items, 0
  {
    if items == [] then []
    else
      FoundItem(items[0], name, cur, filebase)
      + FoundItems(items[1..], name, NextBase(items[0], cur, filebase), filebase)
  }

  /** A root that is no block becomes a register with the file's name, at its own address. */
  function RootFound(tag: seq<Attr>, name: string, filebase: Word): seq<Register> {
    if name == "" then []
    else if IsBlockTag(tag) then [BlockReg(name, Plus(Addr(tag), filebase), tag)]
    else [PlainReg(name, Addr(tag), tag)]
  }

  /** Below a root that is no block, registers count from 0. */
  function RootBase(tag: seq<Attr>, filebase: Word): Word {
    if IsBlockTag(tag) then Plus(Addr(tag), filebase) else 0
  }

  function Found(doc: Doc, name: string, filebase: Word): seq<Register>
    decreases doc, 0
  {
    RootFound(doc.tag, name, filebase) + FoundItems(doc.items, name, RootBase(doc.tag, filebase), filebase)
  }

  // ----- names -----

  lemma {:induction false} PopAppend(name: string, v: string)
    requires DotFree(v)
    ensures Pop(name + "." + v) == name && LastPart(name + "." + v) == v
    decreases |v|
  {
    var s := name + "." + v;
    if v == "" {
      assert s[..|s| - 1] == name;
    } else {
      var w := v[..|v| - 1];
      assert s[..|s| - 1] == name + "." + w && s[|s| - 1] == v[|v| - 1];
      PopAppend(name, w);
      assert w + [v[|v| - 1]] == v;
    }
  }

  lemma {:induction false} PopFree(v: string)
    requires DotFree(v)
    ensures Pop(v) == "" && LastPart(v) == v
    decreases |v|
  {
    if v != "" {
      PopFree(v[..|v| - 1]);
      assert v[..|v| - 1] + [v[|v| - 1]] == v;
    }
  }

  /** Leaving a node restores the dotted name. */
  lemma PopPush(name: string, v: string)
    requires DotFree(v)
    ensures Pop(Push(name, v)) == name && LastPart(Push(name, v)) == v
  {
    if name == "" {
      PopFree(v);
    } else {
      PopAppend(name, v);
    }
  }

  // ----- walking pieces of a file -----

  function Then(r: Result, toks: seq<Token>, filebase: Word): Result {
    match r case Stopped(_, _) => r case Done(w) => Steps(w, toks, filebase)
  }

  lemma {:induction false} StepsAppend(w: Walk, xs: seq<Token>, ys: seq<Token>, filebase: Word)
    ensures Steps(w, xs + ys, filebase) == Then(Steps(w, xs, filebase), ys, filebase)
    decreases |xs|
  {
    if xs == [] {
      assert xs + ys == ys;
    } else {
      assert (xs + ys)[1..] == xs[1..] + ys && (xs + ys)[0] == xs[0];
      match Step(w, xs[0], filebase) {
        case Stopped(_, _) =>
        case Done(w1) => StepsAppend(w1, xs[1..], ys, filebase);
      }
    }
  }

  lemma StepsOne(w: Walk, tok: Token, rest: seq<Token>, filebase: Word)
    ensures Steps(w, [tok] + rest, filebase) == Then(Step(w, tok, filebase), rest, filebase)
  {
    assert ([tok] + rest)[1..] == rest;
  }

  lemma {:induction false} MasksWalk(w: Walk, masks: seq<MaskNode>, filebase: Word) returns (w': Walk)
    requires !w.toplevel && w.reg.size > 0 && forall i :: 0 <= i < |masks| ==> GoodMask(masks[i])
    ensures Steps(w, EmitMasks(masks), filebase) == Done(w')
    ensures w' == w.(reg := WithMasks(w.reg, masks), localaddr := w'.localaddr)
    decreases |masks|
  {
    if masks == [] {
      w' := w;
    } else {
      var tag, rest := masks[0].tag, EmitMasks(masks[1..]);
      var name := Name(tag);
      var r1 := w.reg.(maskNames := w.reg.maskNames + [name], masks := w.reg.masks[name := Bits(tag)]);
      var w1 := w.(reg := r1, localaddr := AddressOf(tag).UnwrapOr(w.localaddr));
      PopPush(w.name, name);
      ReadTidy(Tag(Unset, 0, 0, false, w.name, w.localaddr, w.toplevel), tag);
      assert Step(w, Start(tag, Missing), filebase) == Done(w1.(name := Push(w.name, name)));
      assert EmitMasks(masks) == [Start(tag, Missing)] + ([End] + rest);
      StepsOne(w, Start(tag, Missing), [End] + rest, filebase);
      StepsOne(w1.(name := Push(w.name, name)), End, rest, filebase);
      w' := MasksWalk(w1, masks[1..], filebase);
    }
  }

  // ----- the register map with what is still pending -----

  /** The map without the nameless entries the walk may leave. */
  function Clean(m: Regs): Regs {
    m - {""}
  }

  function Pending(r: Register): Regs {
    if r.name == "" then map[] else map[r.name := r]
  }

  /** Everything found so far: what is in the map, the current register, the current block. */
  function Total(w: Walk): Regs {
    Clean(w.regs) + Pending(w.reg) + Pending(BlockRegister(w.block))
  }

  function AddAll(m: Regs, es: seq<Register>): Regs
    decreases |es|
  {
    if es == [] then m else AddAll(m[es[0].name := es[0]], es[1..])
  }

  /** Names that are not empty and not there yet, one after the other. */
  ghost predicate Fresh(m: Regs, es: seq<Register>)
    decreases |es|
  {
    es != [] ==> es[0].name != "" && es[0].name !in m && Fresh(m[es[0].name := es[0]], es[1..])
  }

  predicate Apart(w: Walk) {
    w.reg.name == "" || w.reg.name != w.block.id
  }

  /** The end of a file adds what is pending. */
  lemma FinishTotal(w: Walk)
    ensures Clean(Finish(w)) == Total(w)
  {
  }

  lemma {:induction false} AddAllAppend(m: Regs, xs: seq<Register>, ys: seq<Register>)
    ensures AddAll(m, xs + ys) == AddAll(AddAll(m, xs), ys)
    decreases |xs|
  {
    if xs == [] {
      assert xs + ys == ys;
    } else {
      assert (xs + ys)[1..] == xs[1..] + ys;
      AddAllAppend(m[xs[0].name := xs[0]], xs[1..], ys);
    }
  }

  lemma {:induction false} FreshSplit(m: Regs, xs: seq<Register>, ys: seq<Register>)
    requires Fresh(m, xs + ys)
    ensures Fresh(m, xs) && Fresh(AddAll(m, xs), ys)
    decreases |xs|
  {
    if xs == [] {
      assert xs + ys == ys;
    } else {
      assert (xs + ys)[1..] == xs[1..] + ys && (xs + ys)[0] == xs[0];
      FreshSplit(m[xs[0].name := xs[0]], xs[1..], ys);
    }
  }

  lemma {:induction false} FreshLess(m: Regs, p: Regs, es: seq<Register>)
    requires Fresh(m, es) && p.Keys <= m.Keys
    ensures Fresh(p, es)
    decreases |es|
  {
    if es != [] {
      FreshLess(m[es[0].name := es[0]], p[es[0].name := es[0]], es[1..]);
    }
  }

  ghost predicate DistinctNames(es: seq<Register>) {
    && (forall i :: 0 <= i < |es| ==> es[i].name != "")
    && (forall i, j :: 0 <= i < j < |es| ==> es[i].name != es[j].name)
  }

  /** Pairwise different, non-empty names are fresh in a map that has none of them. */
  lemma {:induction false} DistinctFresh(m: Regs, es: seq<Register>)
    requires DistinctNames(es) && forall i :: 0 <= i < |es| ==> es[i].name !in m
    ensures Fresh(m, es)
    decreases |es|
  {
    if es != [] {
      var rest := es[1..];
      forall i | 0 <= i < |rest|
        ensures rest[i].name != "" && rest[i].name !in m[es[0].name := es[0]]
      {
        assert rest[i] == es[i + 1];
      }
      DistinctFresh(m[es[0].name := es[0]], rest);
    }
  }

  /** Adding new names and then overriding with pending entries is the same as the other way round. */
  lemma {:induction false} AddAllOver(m: Regs, p: Regs, es: seq<Register>)
    requires Fresh(m + p, es)
    ensures AddAll(m, es) + p == AddAll(m + p, es)
    decreases |es|
  {
    if es != [] {
      var e := es[0];
      assert m[e.name := e] + p == (m + p)[e.name := e];
      AddAllOver(m[e.name := e], p, es[1..]);
    }
  }

  // ----- registers and blocks -----

  lemma {:induction false} WithMasksName(r: Register, masks: seq<MaskNode>)
    ensures WithMasks(r, masks).name == r.name && WithMasks(r, masks).addr == r.addr
    decreases |masks|
  {
    if masks != [] {
      var name, bits := Name(masks[0].tag), Bits(masks[0].tag);
      WithMasksName(r.(maskNames := r.maskNames + [name], masks := r.masks[name := bits]), masks[1..]);
    }
  }

  /** A new current register: the old one goes to the map. */
  lemma NextRegister(w: Walk, e: Register)
    requires e.name != "" && e.name !in Total(w) && Apart(w)
    ensures var regs := if w.reg.name != "" then w.regs[w.reg.name := w.reg] else w.regs;
            Total(w.(regs := regs, reg := e)) == Total(w)[e.name := e]
    ensures e.name != w.block.id
  {
  }

  /** A new current block: the old one goes to the map. */
  lemma NextBlock(w: Walk, b: Block)
    requires b.id != "" && b.id !in Total(w) && Apart(w)
    ensures var regs := if w.block.id != "" then w.regs[w.block.id := BlockRegister(w.block)] else w.regs;
            Total(w.(regs := regs, block := b)) == Total(w)[b.id := BlockRegister(b)]
    ensures b.id != w.reg.name
  {
  }

  /** A register node: the name is restored, and the register is the one the tag says. */
  lemma RegWalk(w: Walk, r: RegNode, filebase: Word) returns (w': Walk)
    requires !w.toplevel && GoodReg(r) && Apart(w)
    requires RegOf(w.name, w.baseaddr, r).name !in Total(w)
    ensures Steps(w, EmitReg(r), filebase) == Done(w')
    ensures w'.name == w.name && w'.baseaddr == w.baseaddr && !w'.toplevel && Apart(w')
    ensures var e := RegOf(w.name, w.baseaddr, r); Total(w') == Total(w)[e.name := e]
  {
    var e, name, start := RegOf(w.name, w.baseaddr, r), Push(w.name, Name(r.tag)), Start(r.tag, Missing);
    var plain := PlainReg(name, Plus(w.baseaddr, Addr(r.tag)), r.tag);
    WithMasksName(plain, r.masks);
    ReadTidy(Tag(Unset, 0, 0, false, w.name, w.localaddr, w.toplevel), r.tag);
    var regs := if w.reg.name != "" then w.regs[w.reg.name := w.reg] else w.regs;
    var w1 := w.(name := name, localaddr := Addr(r.tag), regs := regs, reg := plain);
    assert Step(w, start, filebase) == Done(w1);
    assert EmitReg(r) == [start] + (EmitMasks(r.masks) + [End]);
    StepsOne(w, start, EmitMasks(r.masks) + [End], filebase);
    StepsAppend(w1, EmitMasks(r.masks), [End], filebase);
    var w2 := MasksWalk(w1, r.masks, filebase);
    StepsOne(w2, End, [], filebase);
    assert [End] + [] == [End];
    PopPush(w.name, Name(r.tag));
    w' := w2.(name := w.name);
    NextRegister(w, e);
    assert Total(w') == Total(w.(regs := regs, reg := e));
  }

  lemma {:induction false} RegsWalk(w: Walk, rs: seq<RegNode>, filebase: Word) returns (w': Walk)
    requires !w.toplevel && GoodRegs(rs) && Apart(w) && Fresh(Total(w), RegsOf(w.name, w.baseaddr, rs))
    ensures Steps(w, EmitRegs(rs), filebase) == Done(w')
    ensures w'.name == w.name && w'.baseaddr == w.baseaddr && !w'.toplevel && Apart(w')
    ensures Total(w') == AddAll(Total(w), RegsOf(w.name, w.baseaddr, rs))
    decreases |rs|
  {
    if rs == [] {
      w' := w;
    } else {
      var es := RegsOf(w.name, w.baseaddr, rs);
      assert es[1..] == RegsOf(w.name, w.baseaddr, rs[1..]);
      var w1 := RegWalk(w, rs[0], filebase);
      StepsAppend(w, EmitReg(rs[0]), EmitRegs(rs[1..]), filebase);
      w' := RegsWalk(w1, rs[1..], filebase);
    }
  }

  /** The start tag of a block. */
  lemma BlockStart(w: Walk, tag: seq<Attr>, filebase: Word) returns (w': Walk)
    requires !w.toplevel && Named(tag) && AddressOf(tag).Some? && IsBlockTag(tag) && Apart(w)
    requires Push(w.name, Name(tag)) !in Total(w)
    ensures Step(w, Start(tag, Missing), filebase) == Done(w')
    ensures var name, base := Push(w.name, Name(tag)), Plus(Addr(tag), filebase);
            && w'.name == name && w'.baseaddr == base && !w'.toplevel && Apart(w')
            && Total(w') == Total(w)[name := BlockReg(name, base, tag)]
  {
    var name, base := Push(w.name, Name(tag)), Plus(Addr(tag), filebase);
    var b := Block(name, base, Size(tag), Port(tag));
    ReadTidy(Tag(Unset, 0, 0, false, w.name, w.localaddr, w.toplevel), tag);
    var regs := if w.block.id != "" then w.regs[w.block.id := BlockRegister(w.block)] else w.regs;
    w' := w.(name := name, localaddr := 0, baseaddr := base, regs := regs, block := b);
    assert Step(w, Start(tag, Missing), filebase) == Done(w');
    NextBlock(w, b);
    assert Total(w') == Total(w.(regs := regs, block := b));
  }

  lemma BlockWalk(w: Walk, it: Item, filebase: Word) returns (w': Walk)
    requires !w.toplevel && it.B? && GoodItem(it) && Apart(w)
    requires Fresh(Total(w), BlockOf(w.name, filebase, it.tag, it.regs))
    ensures Steps(w, EmitItem(it), filebase) == Done(w')
    ensures w'.name == w.name && !w'.toplevel && Apart(w') && w'.baseaddr == Plus(Addr(it.tag), filebase)
    ensures Total(w') == AddAll(Total(w), BlockOf(w.name, filebase, it.tag, it.regs))
  {
    var name, base, start := Push(w.name, Name(it.tag)), Plus(Addr(it.tag), filebase), Start(it.tag, Missing);
    var es := BlockOf(w.name, filebase, it.tag, it.regs);
    assert es[0] == BlockReg(name, base, it.tag) && es[1..] == RegsOf(name, base, it.regs);
    var w1 := BlockStart(w, it.tag, filebase);
    assert EmitItem(it) == [start] + (EmitRegs(it.regs) + [End]);
    StepsOne(w, start, EmitRegs(it.regs) + [End], filebase);
    StepsAppend(w1, EmitRegs(it.regs), [End], filebase);
    var w2 := RegsWalk(w1, it.regs, filebase);
    StepsOne(w2, End, [], filebase);
    assert [End] + [] == [End];
    PopPush(w.name, Name(it.tag));
    w' := w2.(name := w.name);
    assert Total(w') == Total(w2);
  }

  // ----- files -----

  /** The tags of a module node around the file it names. */
  lemma ModuleSteps(w: Walk, it: Item, filebase: Word, regs: Regs)
    requires !w.toplevel && it.M? && GoodItem(it)
    requires ParseFile(EmitFile(it.doc), Push(w.name, Name(it.tag)), Plus(Addr(it.tag), filebase), w.regs) ==
             (Complete, regs)
    ensures Steps(w, EmitItem(it), filebase) == Done(w.(localaddr := Addr(it.tag), regs := regs))
  {
    var start := Start(it.tag, EmitFile(it.doc));
    ReadTidy(Tag(Unset, 0, 0, false, w.name, w.localaddr, w.toplevel), it.tag);
    var w1 := w.(name := Push(w.name, Name(it.tag)), localaddr := Addr(it.tag), regs := regs);
    assert Step(w, start, filebase) == Done(w1);
    StepsOne(w, start, [End], filebase);
    assert [start] + [End] == EmitItem(it);
    StepsOne(w1, End, [], filebase);
    assert [End] + [] == [End];
    PopPush(w.name, Name(it.tag));
  }

  /** The nested file fills the map below what is pending. */
  lemma ModuleTotal(w: Walk, regs: Regs, addr: Word, es: seq<Register>)
    requires Fresh(Total(w), es) && Clean(regs) == AddAll(Clean(w.regs), es)
    ensures Total(w.(localaddr := addr, regs := regs)) == AddAll(Total(w), es)
  {
    TotalParts(w);
    TotalParts(w.(localaddr := addr, regs := regs));
    AddAllOver(Clean(w.regs), Pending(w.reg) + Pending(BlockRegister(w.block)), es);
  }

  lemma TotalParts(w: Walk)
    ensures Total(w) == Clean(w.regs) + (Pending(w.reg) + Pending(BlockRegister(w.block)))
  {
  }

  lemma ModuleWalk(w: Walk, it: Item, filebase: Word) returns (w': Walk)
    requires !w.toplevel && it.M? && GoodItem(it) && Apart(w)
    requires Fresh(Total(w), FoundItem(it, w.name, w.baseaddr, filebase))
    ensures Steps(w, EmitItem(it), filebase) == Done(w')
    ensures w'.name == w.name && w'.baseaddr == w.baseaddr && !w'.toplevel && Apart(w')
    ensures Total(w') == AddAll(Total(w), FoundItem(it, w.name, w.baseaddr, filebase))
    decreases it, 0
  {
    var name, base := Push(w.name, Name(it.tag)), Plus(Addr(it.tag), filebase);
    var es := Found(it.doc, name, base);
    FreshLess(Total(w), Clean(w.regs), es);
    FileWalk(it.doc, name, base, w.regs);
    var regs := ParseFile(EmitFile(it.doc), name, base, w.regs).1;
    ModuleSteps(w, it, filebase, regs);
    ModuleTotal(w, regs, Addr(it.tag), es);
    w' := w.(localaddr := Addr(it.tag), regs := regs);
  }

  lemma ItemWalk(w: Walk, it: Item, filebase: Word) returns (w': Walk)
    requires !w.toplevel && GoodItem(it) && Apart(w)
    requires Fresh(Total(w), FoundItem(it, w.name, w.baseaddr, filebase))
    ensures Steps(w, EmitItem(it), filebase) == Done(w')
    ensures w'.name == w.name && !w'.toplevel && Apart(w') && w'.baseaddr == NextBase(it, w.baseaddr, filebase)
    ensures Total(w') == AddAll(Total(w), FoundItem(it, w.name, w.baseaddr, filebase))
    decreases it, 1
  {
    match it
    case R(r) =>
      var es := FoundItem(it, w.name, w.baseaddr, filebase);
      assert es[1..] == [];
      w' := RegWalk(w, r, filebase);
    case B(_, _) => w' := BlockWalk(w, it, filebase);
    case M(_, _) => w' := ModuleWalk(w, it, filebase);
  }

  lemma {:induction false} ItemsWalk(w: Walk, items: seq<Item>, filebase: Word) returns (w': Walk)
    requires !w.toplevel && GoodItems(items) && Apart(w)
    requires Fresh(Total(w), FoundItems(items, w.name, w.baseaddr, filebase))
    ensures Steps(w, EmitItems(items), filebase) == Done(w')
    ensures w'.name == w.name && Apart(w')
    ensures Total(w') == AddAll(Total(w), FoundItems(items, w.name, w.baseaddr, filebase))
    decreases items, 0
  {
    if items == [] {
      w' := w;
    } else {
      var xs := FoundItem(items[0], w.name, w.baseaddr, filebase);
      var ys := FoundItems(items[1..], w.name, NextBase(items[0], w.baseaddr, filebase), filebase);
      FreshSplit(Total(w), xs, ys);
      var w1 := ItemWalk(w, items[0], filebase);
      StepsAppend(w, EmitItem(items[0]), EmitItems(items[1..]), filebase);
      w' := ItemsWalk(w1, items[1..], filebase);
      AddAllAppend(Total(w), xs, ys);
    }
  }

  /** The start tag of a file: the root's own id is not part of any name. */
  lemma RootWalk(doc: Doc, name: string, filebase: Word, regs: Regs) returns (w: Walk)
    requires GoodDoc(doc)
    ensures Step(Open(name, regs), Start(doc.tag, Missing), filebase) == Done(w)
    ensures w.name == name && !w.toplevel && w.baseaddr == RootBase(doc.tag, filebase) && Apart(w)
    ensures Total(w) == AddAll(Clean(regs), RootFound(doc.tag, name, filebase))
  {
    ReadTidy(Tag(Unset, 0, 0, false, name, 0, true), doc.tag);
    w := Enter(Open(name, regs), TagOf(Open(name, regs), doc.tag), filebase);
    var own := RootFound(doc.tag, name, filebase);
    assert own != [] ==> own[1..] == [];
  }

  /** For every file, nested or not: the streaming walk reads it to its end and adds exactly the
      registers Found says, with their names, addresses and masks, to the map. */
  lemma FileWalk(doc: Doc, name: string, filebase: Word, regs: Regs)
    requires GoodDoc(doc) && Fresh(Clean(regs), Found(doc, name, filebase))
    ensures var (status, regs') := ParseFile(EmitFile(doc), name, filebase, regs);
            status == Complete && Clean(regs') == AddAll(Clean(regs), Found(doc, name, filebase))
    decreases doc, 0
  {
    var start, items := Start(doc.tag, Missing), EmitItems(doc.items);
    var own := RootFound(doc.tag, name, filebase);
    var es := FoundItems(doc.items, name, RootBase(doc.tag, filebase), filebase);
    FreshSplit(Clean(regs), own, es);
    AddAllAppend(Clean(regs), own, es);
    var w := RootWalk(doc, name, filebase, regs);
    assert EmitFile(doc).tokens == [start] + (items + [End]);
    StepsOne(Open(name, regs), start, items + [End], filebase);
    StepsAppend(w, items, [End], filebase);
    var w1 := ItemsWalk(w, doc.items, filebase);
    StepsOne(w1, End, [], filebase);
    assert [End] + [] == [End];
    var w2 := w1.(name := Pop(w1.name));
    assert Steps(Open(name, regs), EmitFile(doc).tokens, filebase) == Done(w2);
    FinishTotal(w2);
  }

  lemma {:induction false} AddAllHas(m: Regs, es: seq<Register>)
    requires Fresh(m, es)
    ensures forall n :: n in m ==> n in AddAll(m, es) && AddAll(m, es)[n] == m[n]
    ensures forall i :: 0 <= i < |es| ==> es[i].name in AddAll(m, es) && AddAll(m, es)[es[i].name] == es[i]
    ensures forall n :: n in AddAll(m, es) && n !in m ==> exists i :: 0 <= i < |es| && es[i].name == n
    decreases |es|
  {
    if es != [] {
      var m1, rest := m[es[0].name := es[0]], es[1..];
      AddAllHas(m1, rest);
      forall i | 0 <= i < |es|
        ensures es[i].name in AddAll(m, es) && AddAll(m, es)[es[i].name] == es[i]
      {
        if i > 0 {
          assert rest[i - 1] == es[i];
        }
      }
      forall n | n in AddAll(m, es) && n !in m
        ensures exists i :: 0 <= i < |es| && es[i].name == n
      {
        if n != es[0].name {
          assert n !in m1;
          var i :| 0 <= i < |rest| && rest[i].name == n;
          assert es[i + 1].name == n;
        }
      }
    }
  }
}
