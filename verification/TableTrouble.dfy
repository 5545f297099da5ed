/** What ends the walk over an address table early, and what a missing id does to the names. */
module TableTrouble {
  import opened Wire
  import opened AddressTable
  import opened TableMeaning

  // ----- how a file is read does not depend on where it stands -----

  /** The walks agree in what decides their course. */
  predicate Alike(w: Walk, w': Walk) {
    w.toplevel == w'.toplevel && (w.reg == NO_REGISTER <==> w'.reg == NO_REGISTER)
  }

  predicate AlikeResults(r: Result, r': Result) {
    match (r, r')
    case (Done(w), Done(w')) => Alike(w, w')
    case (Stopped(status, _), Stopped(status', _)) => status == status'
    case _ => false
  }

  lemma {:induction false} ReadAlike(t: Tag, t': Tag, attrs: seq<Attr>)
    requires t.regtype == t'.regtype && t.toplevel == t'.toplevel
    ensures ReadAttrs(t, attrs).regtype == ReadAttrs(t', attrs).regtype
    ensures ReadAttrs(t, attrs).toplevel == ReadAttrs(t', attrs).toplevel
    decreases |attrs|
  {
    if attrs != [] {
      ReadAlike(ReadAttr(t, attrs[0]), ReadAttr(t', attrs[0]), attrs[1..]);
    }
  }

  lemma StepAlike(w: Walk, w': Walk, tok: Token, f: Word, f': Word)
    requires Alike(w, w')
    ensures AlikeResults(Step(w, tok, f), Step(w', tok, f'))
    decreases tok, 0
  {
    match tok
    case End =>
    case Start(attrs, file) =>
      var t, t' := TagOf(w, attrs), TagOf(w', attrs);
      ReadAlike(Tag(Unset, 0, 0, false, w.name, w.localaddr, w.toplevel),
                Tag(Unset, 0, 0, false, w'.name, w'.localaddr, w'.toplevel), attrs);
      if t.regtype.IsModule? {
        FileAlike(file, t.name, Plus(t.localaddr, f), w.regs, t'.name, Plus(t'.localaddr, f'), w'.regs);
      }
  }

  lemma {:induction false} StepsAlike(w: Walk, w': Walk, toks: seq<Token>, f: Word, f': Word)
    requires Alike(w, w')
    ensures AlikeResults(Steps(w, toks, f), Steps(w', toks, f'))
    decreases toks, 0
  {
    if toks != [] {
      StepAlike(w, w', toks[0], f, f');
      var r, r' := Step(w, toks[0], f), Step(w', toks[0], f');
      if r.Done? {
        StepsAlike(r.w, r'.w, toks[1..], f, f');
      }
    }
  }

  /** How a file is read depends on the file alone. */
  lemma FileAlike(file: File, name: string, f: Word, regs: Regs, name': string, f': Word, regs': Regs)
    ensures ParseFile(file, name, f, regs).0 == ParseFile(file, name', f', regs').0
    decreases file, 0
  {
    if file.File? {
      StepsAlike(Open(name, regs), Open(name', regs'), file.tokens, f, f');
    }
  }

  function FileStatus(file: File): Status {
    ParseFile(file, "", 0, map[]).0
  }

  // ----- masks that come too early -----

  predicate MaskTag(tok: Token) {
    tok.Start? && KindOf(tok.attrs).Some? && KindOf(tok.attrs).value.MaskBits?
  }

  predicate ModuleTag(tok: Token) {
    tok.Start? && KindOf(tok.attrs) == Some(ModuleRef)
  }

  predicate RegisterTag(tok: Token) {
    tok.Start? && KindOf(tok.attrs).None?
  }

  /** Every tag is tidy, and none but the root (if `root` says that it comes first) has the id TOP. */
  predicate Legible(toks: seq<Token>, root: bool) {
    forall i :: 0 <= i < |toks| && toks[i].Start? ==>
      Tidy(toks[i].attrs) && (IdOf(toks[i].attrs) == Some("TOP") ==> root && i == 0)
  }

  /** The i-th tag is a mask, and no register tag comes before it (`seen`: nor came before these). */
  predicate TooEarly(toks: seq<Token>, i: nat, seen: bool)
    requires i < |toks|
  {
    MaskTag(toks[i]) && !seen && forall j :: 0 <= j < i ==> !RegisterTag(toks[j])
  }

  /** The i-th tag is the first one the walk does not get past. */
  predicate Stuck(toks: seq<Token>, i: nat, seen: bool)
    requires i < |toks|
  {
    TooEarly(toks, i, seen) || (ModuleTag(toks[i]) && FileStatus(toks[i].file) != Complete)
  }

  /** ... and the program panics there. */
  predicate Fatal(toks: seq<Token>, i: nat, seen: bool)
    requires i < |toks|
  {
    && (TooEarly(toks, i, seen) || (ModuleTag(toks[i]) && FileStatus(toks[i].file) == Panicked))
    && forall j :: 0 <= j < i ==> !Stuck(toks, j, seen)
  }

  ghost predicate FatalSomewhere(toks: seq<Token>, seen: bool) {
    exists i :: 0 <= i < |toks| && Fatal(toks, i, seen)
  }

  /** One tag, by its kind. */
  lemma StepKind(w: Walk, tok: Token, f: Word, root: bool)
    requires Legible([tok], root) && (root ==> w.toplevel)
    ensures Step(w, tok, f).Stopped? <==> Stuck([tok], 0, w.reg != NO_REGISTER)
    ensures Step(w, tok, f).Stopped? ==>
              (Step(w, tok, f).status == Panicked <==> Fatal([tok], 0, w.reg != NO_REGISTER))
    ensures Step(w, tok, f).Done? ==>
              (Step(w, tok, f).w.reg != NO_REGISTER <==> w.reg != NO_REGISTER || RegisterTag(tok))
  {
    if tok.Start? {
      assert [tok][0] == tok;
      ReadTidy(Tag(Unset, 0, 0, false, w.name, w.localaddr, w.toplevel), tok.attrs);
      var t := TagOf(w, tok.attrs);
      if MaskTag(tok) {
        assert t.regtype == IsMask;
        if w.reg != NO_REGISTER {
          assert |Step(w, tok, f).w.reg.maskNames| > 0;
        }
      } else if RegisterTag(tok) {
        assert t.regtype == Unset;
        assert Step(w, tok, f).w.reg.size == 1;
      } else if ModuleTag(tok) {
        assert t.regtype == IsModule;
        FileAlike(tok.file, t.name, Plus(t.localaddr, f), w.regs, "", 0, map[]);
      } else {
        assert KindOf(tok.attrs).value.FwInfo? && t.regtype == IsBlock;
        assert Step(w, tok, f) == Done(Enter(w, t, f));
      }
    }
  }

  lemma EarlyCons(toks: seq<Token>, seen: bool)
    requires toks != []
    ensures var next := seen || RegisterTag(toks[0]);
            && (TooEarly(toks, 0, seen) <==> MaskTag(toks[0]) && !seen)
            && forall i :: 0 < i < |toks| ==> (TooEarly(toks, i, seen) <==> TooEarly(toks[1..], i - 1, next))
  {
    var next, rest := seen || RegisterTag(toks[0]), toks[1..];
    forall i | 0 < i < |toks|
      ensures TooEarly(toks, i, seen) <==> TooEarly(rest, i - 1, next)
    {
      assert toks[i] == rest[i - 1];
      if TooEarly(toks, i, seen) {
        forall j | 0 <= j < i - 1
          ensures !RegisterTag(rest[j])
        {
          assert rest[j] == toks[j + 1];
        }
      }
      if TooEarly(rest, i - 1, next) {
        forall j | 0 <= j < i
          ensures !RegisterTag(toks[j])
        {
          if j > 0 {
            assert toks[j] == rest[j - 1];
          }
        }
      }
    }
  }

  lemma FatalCons(toks: seq<Token>, seen: bool)
    requires toks != []
    ensures var next := seen || RegisterTag(toks[0]);
            && (Stuck(toks, 0, seen) <==> Stuck([toks[0]], 0, seen))
            && (Fatal(toks, 0, seen) <==> Fatal([toks[0]], 0, seen))
            && forall i :: 0 < i < |toks| ==>
                 && (Stuck(toks, i, seen) <==> Stuck(toks[1..], i - 1, next))
                 && (Fatal(toks, i, seen) <==> !Stuck(toks, 0, seen) && Fatal(toks[1..], i - 1, next))
  {
    var next, rest := seen || RegisterTag(toks[0]), toks[1..];
    EarlyCons(toks, seen);
    forall i | 0 < i < |toks|
      ensures Fatal(toks, i, seen) <==> !Stuck(toks, 0, seen) && Fatal(rest, i - 1, next)
    {
      assert toks[i] == rest[i - 1];
      if Fatal(toks, i, seen) {
        forall j | 0 <= j < i - 1
          ensures !Stuck(rest, j, next)
        {
          assert !Stuck(toks, j + 1, seen);
        }
      }
      if !Stuck(toks, 0, seen) && Fatal(rest, i - 1, next) {
        forall j | 0 <= j < i
          ensures !Stuck(toks, j, seen)
        {
          if j > 0 {
            assert !Stuck(rest, j - 1, next);
          }
        }
      }
    }
  }

  lemma {:induction false} StepsPanic(w: Walk, toks: seq<Token>, f: Word, root: bool)
    requires Legible(toks, root) && (root ==> w.toplevel)
    ensures var r := Steps(w, toks, f);
            r.Stopped? && r.status == Panicked <==> FatalSomewhere(toks, w.reg != NO_REGISTER)
    decreases |toks|
  {
    if toks != [] {
      var seen := w.reg != NO_REGISTER;
      StepKind(w, toks[0], f, root);
      FatalCons(toks, seen);
      var r := Step(w, toks[0], f);
      if r.Done? {
        LegibleTail(toks, root);
        StepsPanic(r.w, toks[1..], f, false);
        SomewhereCons(toks, seen);
      } else if FatalSomewhere(toks, seen) {
        var i :| 0 <= i < |toks| && Fatal(toks, i, seen);
        assert i == 0;
      }
    }
  }

  lemma SomewhereCons(toks: seq<Token>, seen: bool)
    requires toks != [] && !Stuck(toks, 0, seen)
    ensures FatalSomewhere(toks, seen) <==> FatalSomewhere(toks[1..], seen || RegisterTag(toks[0]))
  {
    var next, rest := seen || RegisterTag(toks[0]), toks[1..];
    FatalCons(toks, seen);
    if FatalSomewhere(toks, seen) {
      var i :| 0 <= i < |toks| && Fatal(toks, i, seen);
      assert Fatal(rest, i - 1, next);
    }
    if FatalSomewhere(rest, next) {
      var i :| 0 <= i < |rest| && Fatal(rest, i, next);
      assert Fatal(toks, i + 1, seen);
    }
  }

  lemma LegibleTail(toks: seq<Token>, root: bool)
    requires toks != [] && Legible(toks, root)
    ensures Legible(toks[1..], false)
  {
    forall i | 0 <= i < |toks| - 1 && toks[1..][i].Start?
      ensures Tidy(toks[1..][i].attrs) && IdOf(toks[1..][i].attrs) != Some("TOP")
    {
      assert toks[1..][i] == toks[i + 1];
    }
  }

  /** Reading a file panics exactly if a mask tag stands before the first register tag of the file, or a
      nested file panics, with no tag before it that the walk does not get past. */
  lemma MaskFirst(toks: seq<Token>, name: string, filebase: Word, regs: Regs)
    requires Legible(toks, true)
    ensures ParseFile(File(toks), name, filebase, regs).0 == Panicked <==>
            exists i :: 0 <= i < |toks| && Fatal(toks, i, false)
  {
    StepsPanic(Open(name, regs), toks, filebase, true);
  }

  // ----- how a file is read, from its tags and the files they name alone -----

  function Reads(file: File): Status
    decreases file, 0
  {
    match file
    case Missing => Unreadable
    case File(tokens) => ReadsFrom(tokens, false)
  }

  /** `seen` says whether a register tag came before. */
  function ReadsFrom(toks: seq<Token>, seen: bool): Status
    decreases toks, 0
  {
    if toks == [] then Complete
    else if MaskTag(toks[0]) && !seen then Panicked
    else if ModuleTag(toks[0]) && Reads(toks[0].file) != Complete then Reads(toks[0].file)
    else ReadsFrom(toks[1..], seen || RegisterTag(toks[0]))
  }

  /** The tags are legible in the file and in every file it names, at any depth. */
  predicate LegibleFile(file: File)
    decreases file, 0
  {
    file.File? ==>
      && Legible(file.tokens, true)
      && forall i :: 0 <= i < |file.tokens| && file.tokens[i].Start? ==> LegibleFile(file.tokens[i].file)
  }

  /** For every file, at the top or nested, wherever its registers go: the walk ends as the tags say. */
  lemma ReadsExact(file: File, name: string, filebase: Word, regs: Regs)
    requires LegibleFile(file)
    ensures ParseFile(file, name, filebase, regs).0 == Reads(file)
    ensures file == Missing ==> ParseFile(file, name, filebase, regs) == (Unreadable, regs)
    decreases file, 0
  {
    if file.File? {
      StepsReads(Open(name, regs), file.tokens, filebase, true);
    }
  }

  lemma {:induction false} StepsReads(w: Walk, toks: seq<Token>, f: Word, root: bool)
    requires Legible(toks, root) && (root ==> w.toplevel)
    requires forall i :: 0 <= i < |toks| && toks[i].Start? ==> LegibleFile(toks[i].file)
    ensures var r := Steps(w, toks, f);
            ReadsFrom(toks, w.reg != NO_REGISTER) == if r.Stopped? then r.status else Complete
    decreases toks, 0
  {
    if toks != [] {
      var tok := toks[0];
      StepKind(w, tok, f, root);
      if tok.Start? {
        ReadsExact(tok.file, "", 0, map[]);
        StepStatus(w, tok, f, root);
      }
      var r := Step(w, tok, f);
      if r.Done? {
        LegibleTail(toks, root);
        assert forall i :: 0 <= i < |toks[1..]| ==> toks[1..][i] == toks[i + 1];
        StepsReads(r.w, toks[1..], f, false);
      }
    }
  }

  /** A module tag ends the walk as its file ends. */
  lemma StepStatus(w: Walk, tok: Token, f: Word, root: bool)
    requires tok.Start? && Legible([tok], root) && (root ==> w.toplevel)
    ensures ModuleTag(tok) && Step(w, tok, f).Stopped? ==> Step(w, tok, f).status == FileStatus(tok.file)
  {
    assert [tok][0] == tok;
    ReadTidy(Tag(Unset, 0, 0, false, w.name, w.localaddr, w.toplevel), tok.attrs);
    var t := TagOf(w, tok.attrs);
    FileAlike(tok.file, t.name, Plus(t.localaddr, f), w.regs, "", 0, map[]);
  }

  /** A file is read to its end exactly if it is there, all files it names are, and no mask tag stands
      before the first register tag. */
  lemma ReadsComplete(toks: seq<Token>)
    ensures Reads(Missing) == Unreadable
    ensures Reads(File(toks)) == Complete <==>
            forall i :: 0 <= i < |toks| ==>
              !TooEarly(toks, i, false) && (ModuleTag(toks[i]) ==> Reads(toks[i].file) == Complete)
  {
    CompleteFrom(toks, false);
  }

  lemma {:induction false} CompleteFrom(toks: seq<Token>, seen: bool)
    ensures ReadsFrom(toks, seen) == Complete <==>
            forall i :: 0 <= i < |toks| ==>
              !TooEarly(toks, i, seen) && (ModuleTag(toks[i]) ==> Reads(toks[i].file) == Complete)
    decreases |toks|
  {
    if toks != [] {
      var next, rest := seen || RegisterTag(toks[0]), toks[1..];
      CompleteFrom(rest, next);
      EarlyCons(toks, seen);
      assert forall i :: 0 <= i < |rest| ==> rest[i] == toks[i + 1];
      assert forall i :: 0 < i < |toks| ==> toks[i] == rest[i - 1];
    }
  }

  // ----- roots without an id -----

  /** A register with its masks. In a walk that has not met an id yet, the register's own id is taken
      for the root's: the register gets the walk's name, and the name behind it has lost its last part. */
  lemma RegisterNames(w: Walk, r: RegNode, filebase: Word) returns (w': Walk)
    requires GoodReg(r)
    ensures Steps(w, EmitReg(r), filebase) == Done(w')
    ensures w'.reg.name == if w.toplevel then w.name else Push(w.name, Name(r.tag))
    ensures w'.name == if w.toplevel then Pop(w.name) else w.name
  {
    var start, rest := Start(r.tag, Missing), EmitMasks(r.masks) + [End];
    ReadTidy(Tag(Unset, 0, 0, false, w.name, w.localaddr, w.toplevel), r.tag);
    var w1 := Step(w, start, filebase).w;
    assert EmitReg(r) == [start] + rest;
    StepsOne(w, start, rest, filebase);
    StepsAppend(w1, EmitMasks(r.masks), [End], filebase);
    var w2 := MasksWalk(w1, r.masks, filebase);
    StepsOne(w2, End, [], filebase);
    assert [End] + [] == [End];
    WithMasksName(w1.reg, r.masks);
    w' := w2.(name := Pop(w2.name));
    PopPush(w.name, Name(r.tag));
  }

  /** A root with or without an id. */
  predicate RootTag(root: seq<Attr>) {
    Tidy(root) && (KindOf(root).None? || IsBlockTag(root))
  }

  lemma RootNames(root: seq<Attr>, name: string, filebase: Word, regs: Regs) returns (w: Walk)
    requires RootTag(root)
    ensures Step(Open(name, regs), Start(root, Missing), filebase) == Done(w)
    ensures w.name == name && (w.toplevel <==> IdOf(root).None?)
  {
    ReadTidy(Tag(Unset, 0, 0, false, name, 0, true), root);
    w := Enter(Open(name, regs), TagOf(Open(name, regs), root), filebase);
  }

  /** A file that begins with a root and a register. The register has the tree's name exactly if the root
      has an id; otherwise it has the file's. The name behind it is the file's again exactly if the root
      has an id or the file has no name; otherwise it has lost its last part. */
  lemma FirstRegister(root: seq<Attr>, r: RegNode, name: string, filebase: Word, regs: Regs) returns (w: Walk)
    requires RootTag(root) && GoodReg(r)
    ensures Steps(Open(name, regs), [Start(root, Missing)] + EmitReg(r), filebase) == Done(w)
    ensures w.reg.name == if IdOf(root).Some? then Push(name, Name(r.tag)) else name
    ensures w.reg.name == Push(name, Name(r.tag)) <==> IdOf(root).Some?
    ensures w.name == if IdOf(root).Some? then name else Pop(name)
    ensures w.name == name <==> IdOf(root).Some? || name == ""
  {
    var w1 := RootNames(root, name, filebase, regs);
    StepsOne(Open(name, regs), Start(root, Missing), EmitReg(r), filebase);
    w := RegisterNames(w1, r, filebase);
    PopShorter(name);
  }

  lemma {:induction false} PopShorter(name: string)
    ensures |Pop(name)| <= |name| && (Pop(name) == name <==> name == "")
    decreases |name|
  {
    if name != "" && name[|name| - 1] != '.' {
      PopShorter(name[..|name| - 1]);
    }
  }
}
