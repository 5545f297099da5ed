/** The streaming walk over an address table file (parseregfile in parser.go). A file is its list of
  * start and end tags; attribute values are already read, and a module attribute carries the file it
  * names. */
module AddressTable {
  import opened Wire

  datatype File = Missing | File(tokens: seq<Token>)

  datatype Token = Start(attrs: seq<Attr>, file: File) | End

  /** FwInfo holds the size that the fwinfo text stands for, Mode whether the mode is "port". */
  datatype Attr = Id(v: string) | Address(addr: Word) | MaskBits(mask: Word) | ModuleRef
                | FwInfo(size: nat) | Mode(port: bool) | OtherAttr

  datatype Register = Register(name: string, addr: Word, maskNames: seq<string>, masks: map<string, Word>,
                               noninc: bool, size: nat)

  datatype Block = Block(id: string, address: Word, size: nat, port: bool)

  type Regs = map<string, Register>

  function Plus(a: Word, b: Word): Word {
    (a + b) % 0x1_0000_0000
  }

  function BlockRegister(b: Block): Register {
    Register(b.id, b.address, [], map[], b.port, b.size)
  }

  // ----- dotted names -----

  function Push(name: string, v: string): string {
    if name != "" then name + "." + v else v
  }

  /** Everything before the last dot; nothing if there is no dot. */
  function Pop(name: string): string {
    if name == "" then ""
    else if name[|name| - 1] == '.' then name[..|name| - 1]
    else Pop(name[..|name| - 1])
  }

  /** The component behind the last dot. */
  function LastPart(name: string): string {
    if name == "" || name[|name| - 1] == '.' then "" else LastPart(name[..|name| - 1]) + [name[|name| - 1]]
  }

  predicate DotFree(v: string) {
    '.' !in v
  }

  // ----- one start tag -----

  datatype RegType = Unset | Top | IsMask | IsModule | IsBlock

  /** What the attribute loop collects. */
  datatype Tag = Tag(regtype: RegType, mask: Word, size: nat, port: bool, name: string, localaddr: Word, toplevel: bool)

  function ReadAttr(t: Tag, a: Attr): Tag {
    match a
    case Id(v) =>
      if t.toplevel then t.(toplevel := false)
      else if v == "TOP" then t.(regtype := Top)
      else t.(name := Push(t.name, v))
    case Address(addr) => t.(localaddr := addr)
    case MaskBits(mask) => t.(regtype := IsMask, mask := mask)
    case ModuleRef => t.(regtype := IsModule)
    case FwInfo(size) => t.(regtype := IsBlock, size := size)
    case Mode(port) => t.(port := port)
    case OtherAttr => t
  }

  function ReadAttrs(t: Tag, attrs: seq<Attr>): Tag
    decreases |attrs|
  {
    if attrs == [] then t else ReadAttrs(ReadAttr(t, attrs[0]), attrs[1..])
  }

  // ----- the walk -----

  datatype Walk = Walk(name: string, baseaddr: Word, localaddr: Word, toplevel: bool,
                       block: Block, reg: Register, regs: Regs)

  /** How the walk over a file ends: read to its end, a file that cannot be opened, or a panic. */
  datatype Status = Complete | Unreadable | Panicked

  datatype Result = Done(w: Walk) | Stopped(status: Status, regs: Regs)

  const NO_BLOCK := Block("", 0, 0, false)

  /** The zero register, which has no map of masks yet. Every register of a tag has size 1. */
  const NO_REGISTER := Register("", 0, [], map[], false, 0)

  function Open(basename: string, regs: Regs): Walk {
    Walk(basename, 0, 0, true, NO_BLOCK, NO_REGISTER, regs)
  }

  function TagOf(w: Walk, attrs: seq<Attr>): Tag {
    ReadAttrs(Tag(Unset, 0, 0, false, w.name, w.localaddr, w.toplevel), attrs)
  }

  /** A start tag that is no module. */
  function Enter(w: Walk, t: Tag, filebase: Word): Walk {
    var w := w.(name := t.name, localaddr := t.localaddr, toplevel := t.toplevel);
    match t.regtype
    case IsBlock =>
      var base := Plus(t.localaddr, filebase);
      w.(baseaddr := base, localaddr := 0,
         regs := if w.block.id != "" then w.regs[w.block.id := BlockRegister(w.block)] else w.regs,
         block := Block(t.name, base, t.size, t.port))
    case Unset =>
      w.(regs := if w.reg.name != "" then w.regs[w.reg.name := w.reg] else w.regs,
         reg := Register(t.name, Plus(w.baseaddr, t.localaddr), [], map[], t.port, 1))
    case IsMask =>
      var part := LastPart(t.name);
      w.(reg := w.reg.(maskNames := w.reg.maskNames + [part], masks := w.reg.masks[part := t.mask]))
    case _ => w
  }

  function Step(w: Walk, tok: Token, filebase: Word): Result
    decreases tok, 0
  {
    match tok
    case End => Done(w.(name := Pop(w.name)))
    case Start(attrs, file) =>
      var t := TagOf(w, attrs);
      if t.regtype.IsModule? then
        var (status, regs) := ParseFile(file, t.name, Plus(t.localaddr, filebase), w.regs);
        if status == Complete then Done(Enter(w, t, filebase).(regs := regs)) else Stopped(status, regs)
      else if t.regtype.IsMask? && w.reg == NO_REGISTER then Stopped(Panicked, w.regs)
      else Done(Enter(w, t, filebase))
  }

  function Steps(w: Walk, toks: seq<Token>, filebase: Word): Result
    decreases toks, 0
  {
    if toks == [] then Done(w)
    else
      match Step(w, toks[0], filebase)
      case Stopped(status, regs) => Stopped(status, regs)
      case Done(w1) => Steps(w1, toks[1..], filebase)
  }

  /** What is still pending at the end of a file is added last. */
  function Finish(w: Walk): Regs {
    w.regs[w.reg.name := w.reg][w.block.id := BlockRegister(w.block)]
  }

  /** How reading the file ends, and the register map afterwards. */
  function ParseFile(file: File, basename: string, filebase: Word, regs: Regs): (Status, Regs)
    decreases file, 0
  {
    match file
    case Missing => (Unreadable, regs)
    case File(tokens) =>
      match Steps(Open(basename, regs), tokens, filebase)
      case Stopped(status, regs) => (status, regs)
      case Done(w) => (Complete, Finish(w))
  }

  // ----- the loop itself -----

  class Table {
    var regs: Regs

    /** The loop over the attributes of a start tag. */
    method ReadTag(start: Tag, attrs: seq<Attr>) returns (t: Tag)
      ensures t == ReadAttrs(start, attrs)
    {
      t := start;
      for i := 0 to |attrs|
        invariant ReadAttrs(t, attrs[i..]) == ReadAttrs(start, attrs)
      {
        assert attrs[i..][1..] == attrs[i + 1..];
        t := ReadAttr(t, attrs[i]);
      }
      assert attrs[|attrs|..] == [];
    }

    method ParseRegFile(file: File, basename: string, filebase: Word) returns (status: Status)
      modifies this
      ensures (status, regs) == ParseFile(file, basename, filebase, old(regs))
      decreases file, 0
    {
      if file.Missing? {
        return Unreadable;
      }
      var tokens := file.tokens;
      var name, baseaddr, localaddr := basename, 0, 0;
      var block, reg, toplevel := NO_BLOCK, NO_REGISTER, true;
      ghost var goal := Steps(Open(basename, regs), tokens, filebase);
      assert tokens[0..] == tokens;
      for i := 0 to |tokens|
        invariant Steps(Walk(name, baseaddr, localaddr, toplevel, block, reg, regs), tokens[i..], filebase) == goal
      {
        ghost var w := Walk(name, baseaddr, localaddr, toplevel, block, reg, regs);
        assert tokens[i..][1..] == tokens[i + 1..];
        var tok := tokens[i];
        if tok.Start? {
          var t := ReadTag(Tag(Unset, 0, 0, false, name, localaddr, toplevel), tok.attrs);
          name, localaddr, toplevel := t.name, t.localaddr, t.toplevel;
          if t.regtype == IsBlock {
            baseaddr := Plus(localaddr, filebase);
            localaddr := 0;
            if block.id != "" {
              regs := regs[block.id := BlockRegister(block)];
            }
            block := Block(name, baseaddr, t.size, t.port);
          } else if t.regtype == Unset {
            if reg.name != "" {
              regs := regs[reg.name := reg];
            }
            reg := Register(name, Plus(baseaddr, localaddr), [], map[], t.port, 1);
          } else if t.regtype == IsMask {
            if reg == NO_REGISTER {
              return Panicked;
            }
            var maskname := LastPart(name);
            reg := reg.(maskNames := reg.maskNames + [maskname], masks := reg.masks[maskname := t.mask]);
          } else if t.regtype == IsModule {
            status := ParseRegFile(tok.file, name, Plus(localaddr, filebase));
            if status != Complete {
              return;
            }
          }
        } else {
          name := Pop(name);
        }
      }
      assert tokens[|tokens|..] == [];
      regs := regs[reg.name := reg];
      regs := regs[block.id := BlockRegister(block)];
      status := Complete;
    }
  }
}
