/** Exactly when the streaming walk gives the registers of the tree, and what it gives otherwise. */
module TableExact {
  import opened Wire
  import opened AddressTable
  import opened TableMeaning

  /** The items of a file whose root is at `root`: a register counts from the root or from the block
      before it, whose offset is `offset`; blocks and modules do not count the root's address at all. */
  predicate ItemsExact(items: seq<Item>, offset: Word, root: Word)
    decreases items, 0
  {
    items != [] ==>
      && (match items[0]
          case R(_) => offset == root
          case B(_, _) => root == 0
          case M(_, doc) => root == 0 && DocExact(doc, true))
      && ItemsExact(items[1..], if items[0].B? then Addr(items[0].tag) else offset, root)
  }

  /** Every nested root is a block, every register behind a block has that block at its root's offset,
      and roots with blocks or modules below them have no address of their own. */
  predicate DocExact(doc: Doc, nested: bool)
    decreases doc, 0
  {
    && (nested ==> IsBlockTag(doc.tag))
    && ItemsExact(doc.items, if IsBlockTag(doc.tag) then Addr(doc.tag) else 0, Addr(doc.tag))
  }

  // ----- lists of registers side by side -----

  /** `xs` has at least as many registers as `ys`; if as many, then with the same names. */
  ghost predicate Beside(xs: seq<Register>, ys: seq<Register>) {
    && |xs| >= |ys|
    && (|xs| == |ys| ==> forall i :: 0 <= i < |xs| ==> xs[i].name == ys[i].name)
  }

  lemma BesideAppend(xs: seq<Register>, ys: seq<Register>, xs': seq<Register>, ys': seq<Register>)
    requires Beside(xs, ys) && Beside(xs', ys')
    ensures Beside(xs + xs', ys + ys')
    ensures xs + xs' == ys + ys' <==> xs == ys && xs' == ys'
  {
    if xs + xs' == ys + ys' {
      assert |xs| == |ys|;
      assert xs == (xs + xs')[..|xs|] && ys == (ys + ys')[..|ys|];
      assert xs' == (xs + xs')[|xs|..] && ys' == (ys + ys')[|ys|..];
    }
  }

  lemma {:induction false} MasksBeside(r: Register, s: Register, masks: seq<MaskNode>)
    requires r.(addr := s.addr) == s
    ensures WithMasks(r, masks).(addr := s.addr) == WithMasks(s, masks)
    ensures WithMasks(r, masks) == WithMasks(s, masks) <==> r == s
    decreases |masks|
  {
    if masks != [] {
      var name, bits := Name(masks[0].tag), Bits(masks[0].tag);
      MasksBeside(r.(maskNames := r.maskNames + [name], masks := r.masks[name := bits]),
                  s.(maskNames := s.maskNames + [name], masks := s.masks[name := bits]), masks[1..]);
    }
  }

  lemma PlusSame(a: Word, b: Word, c: Word)
    ensures Plus(a, b) == Plus(a, c) <==> b == c
    ensures Plus(b, a) == Plus(c, a) <==> b == c
    ensures Plus(0, a) == a
  {
  }

  lemma RegBeside(name: string, b: Word, c: Word, r: RegNode)
    ensures RegOf(name, b, r).name == RegOf(name, c, r).name
    ensures RegOf(name, b, r) == RegOf(name, c, r) <==> b == c
  {
    var full := Push(name, Name(r.tag));
    var x, y := PlainReg(full, Plus(b, Addr(r.tag)), r.tag), PlainReg(full, Plus(c, Addr(r.tag)), r.tag);
    MasksBeside(x, y, r.masks);
    WithMasksName(x, r.masks);
    WithMasksName(y, r.masks);
    PlusSame(Addr(r.tag), b, c);
  }

  lemma {:induction false} RegsBeside(name: string, b: Word, c: Word, rs: seq<RegNode>)
    ensures |RegsOf(name, b, rs)| == |RegsOf(name, c, rs)| && Beside(RegsOf(name, b, rs), RegsOf(name, c, rs))
    decreases |rs|
  {
    if rs != [] {
      RegBeside(name, b, c, rs[0]);
      RegsBeside(name, b, c, rs[1..]);
    }
  }

  lemma BlockBeside(name: string, b: Word, c: Word, tag: seq<Attr>, regs: seq<RegNode>)
    ensures Beside(BlockOf(name, b, tag, regs), BlockOf(name, c, tag, regs))
    ensures BlockOf(name, b, tag, regs) == BlockOf(name, c, tag, regs) <==> b == c
  {
    var full := Push(name, Name(tag));
    var x, y := BlockOf(name, b, tag, regs), BlockOf(name, c, tag, regs);
    assert x[0] == BlockReg(full, Plus(Addr(tag), b), tag) && y[0] == BlockReg(full, Plus(Addr(tag), c), tag);
    RegsBeside(full, Plus(Addr(tag), b), Plus(Addr(tag), c), regs);
    PlusSame(Addr(tag), b, c);
  }

  // ----- what the walk finds against the tree -----

  lemma {:induction false} ItemsBeside(items: seq<Item>, name: string, cur: Word, filebase: Word, base: Word)
    requires GoodItems(items)
    ensures Beside(FoundItems(items, name, cur, filebase), ItemsEntries(items, name, base))
    decreases items, 0
  {
    if items != [] {
      ItemBeside(items[0], name, cur, filebase, base);
      ItemsBeside(items[1..], name, NextBase(items[0], cur, filebase), filebase, base);
      BesideAppend(FoundItem(items[0], name, cur, filebase), ItemEntries(items[0], name, base),
                   FoundItems(items[1..], name, NextBase(items[0], cur, filebase), filebase),
                   ItemsEntries(items[1..], name, base));
    }
  }

  lemma ItemBeside(it: Item, name: string, cur: Word, filebase: Word, base: Word)
    requires GoodItem(it)
    ensures Beside(FoundItem(it, name, cur, filebase), ItemEntries(it, name, base))
    decreases it, 1
  {
    match it
    case R(r) => RegBeside(name, cur, base, r);
    case B(tag, regs) => BlockBeside(name, filebase, base, tag, regs);
    case M(tag, doc) => DocBeside(doc, Push(name, Name(tag)), Plus(Addr(tag), filebase), Plus(Addr(tag), base));
  }

  function OwnEntry(tag: seq<Attr>, name: string, filebase: Word): seq<Register> {
    if IsBlockTag(tag) && name != "" then [BlockReg(name, Plus(Addr(tag), filebase), tag)] else []
  }

  /** A nested file at two places: never more registers in the tree than found, and different ones if
      the places differ or the root is no block. */
  lemma DocBeside(doc: Doc, name: string, f: Word, g: Word)
    requires GoodDoc(doc) && name != ""
    ensures Beside(Found(doc, name, f), Entries(doc, name, g))
    ensures f != g || !IsBlockTag(doc.tag) ==> Found(doc, name, f) != Entries(doc, name, g)
    decreases doc, 0
  {
    var own, tree := RootFound(doc.tag, name, f), OwnEntry(doc.tag, name, g);
    ItemsBeside(doc.items, name, RootBase(doc.tag, f), f, Plus(Addr(doc.tag), g));
    PlusSame(Addr(doc.tag), f, g);
    assert own == tree <==> f == g && IsBlockTag(doc.tag);
    BesideAppend(own, tree, FoundItems(doc.items, name, RootBase(doc.tag, f), f),
                 ItemsEntries(doc.items, name, Plus(Addr(doc.tag), g)));
  }

  /** One item is found where the tree has it exactly if the condition on it holds. */
  lemma ItemFound(it: Item, name: string, offset: Word, filebase: Word, root: Word)
    requires GoodItem(it)
    ensures FoundItem(it, name, Plus(offset, filebase), filebase) == ItemEntries(it, name, Plus(root, filebase)) <==>
            match it
            case R(_) => offset == root
            case B(_, _) => root == 0
            case M(_, doc) => root == 0 && DocExact(doc, true)
    decreases it, 1
  {
    PlusSame(filebase, offset, root);
    PlusSame(filebase, 0, root);
    match it
    case R(r) => RegBeside(name, Plus(offset, filebase), Plus(root, filebase), r);
    case B(tag, regs) =>
      BlockBeside(name, filebase, Plus(root, filebase), tag, regs);
    case M(tag, doc) =>
      var full, f, g := Push(name, Name(tag)), Plus(Addr(tag), filebase), Plus(Addr(tag), Plus(root, filebase));
      PlusSame(Addr(tag), filebase, Plus(root, filebase));
      DocBeside(doc, full, f, g);
      if root == 0 {
        DocFound(doc, full, f);
      }
  }

  lemma {:induction false} ItemsFound(items: seq<Item>, name: string, offset: Word, filebase: Word, root: Word)
    requires GoodItems(items)
    ensures var cur, base := Plus(offset, filebase), Plus(root, filebase);
            FoundItems(items, name, cur, filebase) == ItemsEntries(items, name, base) <==>
            ItemsExact(items, offset, root)
    decreases items, 0
  {
    if items != [] {
      var it, cur, base := items[0], Plus(offset, filebase), Plus(root, filebase);
      var next := if it.B? then Addr(it.tag) else offset;
      assert NextBase(it, cur, filebase) == Plus(next, filebase);
      ItemFound(it, name, offset, filebase, root);
      ItemsFound(items[1..], name, next, filebase, root);
      ItemBeside(it, name, cur, filebase, base);
      ItemsBeside(items[1..], name, Plus(next, filebase), filebase, base);
      BesideAppend(FoundItem(it, name, cur, filebase), ItemEntries(it, name, base),
                   FoundItems(items[1..], name, Plus(next, filebase), filebase), ItemsEntries(items[1..], name, base));
    }
  }

  /** For every file, at the top or nested: the walk finds the registers of the tree exactly if the
      file is exact. */
  lemma DocFound(doc: Doc, name: string, filebase: Word)
    requires GoodDoc(doc) && (name != "" || filebase == 0)
    ensures Found(doc, name, filebase) == Entries(doc, name, filebase) <==> DocExact(doc, name != "")
    decreases doc, 0
  {
    var own, tree := RootFound(doc.tag, name, filebase), OwnEntry(doc.tag, name, filebase);
    var base := Plus(Addr(doc.tag), filebase);
    var offset := if IsBlockTag(doc.tag) then Addr(doc.tag) else 0;
    PlusSame(filebase, 0, 0);
    var cur := RootBase(doc.tag, filebase);
    ItemsBeside(doc.items, name, cur, filebase, base);
    assert own == tree <==> name == "" || IsBlockTag(doc.tag);
    BesideAppend(own, tree, FoundItems(doc.items, name, cur, filebase), ItemsEntries(doc.items, name, base));
    if own == tree {
      assert cur == Plus(offset, filebase);
      ItemsFound(doc.items, name, offset, filebase, Addr(doc.tag));
    }
  }

  // ----- the whole table -----

  lemma {:induction false} AddAllSize(m: Regs, es: seq<Register>)
    ensures |AddAll(m, es)| <= |m| + |es|
    ensures Fresh(m, es) ==> |AddAll(m, es)| == |m| + |es|
    decreases |es|
  {
    if es != [] {
      AddAllSize(m[es[0].name := es[0]], es[1..]);
      assert m[es[0].name := es[0]].Keys == m.Keys + {es[0].name};
    }
  }

  /** Lists with different names give the same map only if they are the same. */
  lemma TablesDiffer(xs: seq<Register>, ys: seq<Register>)
    requires Beside(xs, ys) && DistinctNames(xs)
    ensures AddAll(map[], xs) == AddAll(map[], ys) <==> xs == ys
  {
    DistinctFresh(map[], xs);
    AddAllSize(map[], xs);
    AddAllSize(map[], ys);
    if AddAll(map[], xs) == AddAll(map[], ys) {
      assert |xs| == |ys|;
      assert DistinctNames(ys);
      DistinctFresh(map[], ys);
      AddAllHas(map[], xs);
      AddAllHas(map[], ys);
      forall i | 0 <= i < |xs|
        ensures xs[i] == ys[i]
      {
        assert xs[i].name == ys[i].name;
      }
    }
  }

  /** The whole table. A top-level file whose walk meets pairwise different names is read to its end;
      the map holds exactly what Found says; and that is the table of the tree exactly if the file is
      exact, a condition on its tags that can be checked before reading it. */
  lemma TableIff(doc: Doc)
    requires GoodDoc(doc) && DistinctNames(Found(doc, "", 0))
    ensures var (status, regs) := ParseFile(EmitFile(doc), "", 0, map[]);
            && status == Complete
            && Clean(regs) == AddAll(map[], Found(doc, "", 0))
            && (Clean(regs) == AddAll(map[], Entries(doc, "", 0)) <==> DocExact(doc, false))
  {
    var xs, ys := Found(doc, "", 0), Entries(doc, "", 0);
    DistinctFresh(map[], xs);
    assert Clean(map[]) == map[];
    FileWalk(doc, "", 0, map[]);
    DocFound(doc, "", 0);
    ItemsBeside(doc.items, "", RootBase(doc.tag, 0), 0, Plus(Addr(doc.tag), 0));
    var none: seq<Register> := [];
    BesideAppend(none, none, FoundItems(doc.items, "", RootBase(doc.tag, 0), 0),
                 ItemsEntries(doc.items, "", Plus(Addr(doc.tag), 0)));
    TablesDiffer(xs, ys);
  }

  /** Name by name: an exact top-level file with pairwise different full names gives exactly the
      registers of its tree. */
  lemma TableIsTree(doc: Doc)
    requires GoodDoc(doc) && DocExact(doc, false)
    requires DistinctNames(Entries(doc, "", 0))
    ensures var (status, regs) := ParseFile(EmitFile(doc), "", 0, map[]);
            && status == Complete
            && forall n :: n != "" ==>
                 (n in regs <==> exists i :: 0 <= i < |Entries(doc, "", 0)| && Entries(doc, "", 0)[i].name == n)
                 && (n in regs ==> regs[n].name == n && regs[n] in Entries(doc, "", 0))
  {
    var es := Entries(doc, "", 0);
    DocFound(doc, "", 0);
    TableIff(doc);
    DistinctFresh(map[], es);
    AddAllHas(map[], es);
    var regs := ParseFile(EmitFile(doc), "", 0, map[]).1;
    assert forall n :: n != "" ==> (n in regs <==> n in Clean(regs));
  }

  // ----- what goes wrong -----

  /** A nested file whose root is no block: the root becomes a register at its own address, and a
      register below it counts from 0 instead of the module's address. */
  lemma NestedPlainRoot(id: string, addr: Word, rootid: string, r: RegNode)
    requires GoodId(id) && GoodReg(r) && addr != 0
    ensures var root := [Id(rootid)];
            var doc := Doc([Id("TOP")], [M([Id(id), Address(addr), ModuleRef], Doc(root, [R(r)]))]);
            && GoodDoc(doc) && !DocExact(doc, false)
            && Entries(doc, "", 0) == [RegOf(id, addr, r)]
            && Found(doc, "", 0) == [PlainReg(id, 0, root), RegOf(id, 0, r)]
            && RegOf(id, 0, r) != RegOf(id, addr, r)
  {
    var root, tag := [Id(rootid)], [Id(id), Address(addr), ModuleRef];
    RegBeside(id, 0, addr, r);
    OneId(rootid);
    OneId("TOP");
    OneModule(id, addr);
    var inner := Doc(root, [R(r)]);
    PlainInner(inner, r, id, addr);
    OneItem(M(tag, inner), "", 0, 0, 0);
    PlusSame(0, addr, addr);
    PlusSame(addr, 0, 0);
    assert Entries(Doc([Id("TOP")], [M(tag, inner)]), "", 0) == Entries(inner, id, addr);
  }

  lemma OneId(id: string)
    ensures var tag := [Id(id)];
            && Tidy(tag) && IdOf(tag) == Some(id)
            && AddressOf(tag) == None && ModeOf(tag) == None && KindOf(tag) == None
  {
    assert [Id(id)][1..] == [];
  }

  lemma OneModule(id: string, addr: Word)
    ensures var tag := [Id(id), Address(addr), ModuleRef];
            && Tidy(tag) && IdOf(tag) == Some(id) && AddressOf(tag) == Some(addr) && KindOf(tag) == Some(ModuleRef)
  {
    var tag := [Id(id), Address(addr), ModuleRef];
    var rest, last := tag[1..], tag[1..][1..];
    assert last[0] == ModuleRef && last[1..] == [];
    assert Tidy(last) && KindOf(last) == Some(ModuleRef) && AddressOf(last) == None && IdOf(last) == None;
    assert rest[0] == Address(addr);
    assert Tidy(rest) && KindOf(rest) == Some(ModuleRef) && AddressOf(rest) == Some(addr) && IdOf(rest) == None;
  }

  lemma OneItem(it: Item, name: string, cur: Word, filebase: Word, base: Word)
    ensures GoodItems([it]) <==> GoodItem(it)
    ensures FoundItems([it], name, cur, filebase) == FoundItem(it, name, cur, filebase)
    ensures ItemsEntries([it], name, base) == ItemEntries(it, name, base)
    ensures ItemsExact([it], cur, base) && it.M? ==> DocExact(it.doc, true)
  {
    assert [it][1..] == [];
    var next := NextBase(it, cur, filebase);
    assert FoundItems([], name, next, filebase) == [];
    assert ItemsEntries([], name, base) == [];
  }

  lemma PlainInner(inner: Doc, r: RegNode, id: string, addr: Word)
    requires GoodReg(r) && id != "" && inner.items == [R(r)]
    requires Tidy(inner.tag) && IdOf(inner.tag).Some? && KindOf(inner.tag) == None && AddressOf(inner.tag) == None
    ensures GoodDoc(inner) && !DocExact(inner, true)
    ensures Entries(inner, id, addr) == [RegOf(id, addr, r)]
    ensures Found(inner, id, addr) == [PlainReg(id, 0, inner.tag), RegOf(id, 0, r)]
  {
    OneItem(R(r), id, 0, addr, addr);
    PlusSame(0, addr, addr);
    var own := RootFound(inner.tag, id, addr);
    assert own == [PlainReg(id, 0, inner.tag)];
    assert own + [RegOf(id, 0, r)] == [PlainReg(id, 0, inner.tag), RegOf(id, 0, r)];
  }

  /** A register below the root of a file but behind a block counts from that block: it is the tree's
      exactly if the block starts at the file's base. */
  lemma LateRegister(w: Walk, it: Item, r: RegNode, filebase: Word) returns (w': Walk)
    requires !w.toplevel && it.B? && GoodItem(it) && GoodReg(r) && Apart(w)
    requires Fresh(Total(w), BlockOf(w.name, filebase, it.tag, it.regs)
                             + [RegOf(w.name, Plus(Addr(it.tag), filebase), r)])
    ensures Steps(w, EmitItem(it) + EmitReg(r), filebase) == Done(w')
    ensures var got := RegOf(w.name, Plus(Addr(it.tag), filebase), r);
            && got.name in Total(w') && Total(w')[got.name] == got
            && (got == RegOf(w.name, filebase, r) <==> Addr(it.tag) == 0)
  {
    var got := RegOf(w.name, Plus(Addr(it.tag), filebase), r);
    FreshSplit(Total(w), BlockOf(w.name, filebase, it.tag, it.regs), [got]);
    StepsAppend(w, EmitItem(it), EmitReg(r), filebase);
    var w1 := BlockWalk(w, it, filebase);
    w' := RegWalk(w1, r, filebase);
    RegBeside(w.name, Plus(Addr(it.tag), filebase), filebase, r);
    PlusSame(filebase, Addr(it.tag), 0);
  }
}
