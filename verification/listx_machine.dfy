/**
 A flat reading of the `-listx` walk: one explicit parsing context per
 nesting level (document, taginfo, table, tag, desc), each holding only what
 is needed to finish its own element, and a step function per token.  This
 is an independent definition of which tags the walk hands over; the lemmas
 below prove that the recursive descent of exif/listx.go computes exactly it.
 */
module ListXMachine {
  import opened XmlTokens
  import opened ListX

  /** The parsing context.  A tag context carries its table inside the tag,
      so every context determines its parent. */
  datatype Ctx =
    | Top
    | InInfo
    | InTable(table: TableInfo)
    | InTag(tag: Tag)
    | InDesc(tag: Tag, desc: Description)
    | Halted

  datatype Run = Run(ctx: Ctx, sent: seq<Tag>)

  /** Where the walk goes after the handler answered `v` for a tag of `table`:
      on nil back to the table, on stop nowhere, on any other error back to
      the document level. */
  function AfterVerdict(v: Verdict, table: TableInfo): Ctx {
    match v
    case Continue => InTable(table)
    case Stop => Halted
    case Fail(_) => Top
  }

  /** One token in one context: the next context and the tags handed over. */
  function Step(ctx: Ctx, tk: Token, h: Handler): Run {
    if tk.Fault? then Run(Halted, [])
    else
      match ctx
      case Halted => Run(Halted, [])
      case Top =>
        if tk.Start? && tk.name == "taginfo" then Run(InInfo, []) else Run(Top, [])
      case InInfo =>
        if tk.Start? && tk.name == "table" then Run(InTable(TableFromStart(tk.attrs)), [])
        else if tk.End? && tk.name == "taginfo" then Run(Top, [])
        else Run(InInfo, [])
      case InTable(t) =>
        if tk.Start? && tk.name == "tag" then Run(InTag(TagFromStart(t, tk.attrs)), [])
        else if tk.End? && tk.name == "table" then Run(InInfo, [])
        else Run(InTable(t), [])
      case InTag(g) =>
        if tk.Start? && tk.name == "desc" then Run(InDesc(g, DescFromStart(tk.attrs)), [])
        else if tk.End? && tk.name == "tag" then Run(AfterVerdict(h(g), g.table), [g])
        else Run(InTag(g), [])
      case InDesc(g, d) =>
        if tk.CharData? then Run(InDesc(g, d.(text := tk.text)), [])
        else if tk.End? && tk.name == "desc" then Run(InTag(g.(descriptions := g.descriptions + [d])), [])
        else Run(InDesc(g, d), [])
  }

  /** Runs the tokens from `ctx`. */
  function Exec(ts: seq<Token>, ctx: Ctx, h: Handler): Run
    decreases |ts|
  {
    if ts == [] then Run(ctx, [])
    else
      var s := Step(ctx, ts[0], h);
      var r := Exec(ts[1..], s.ctx, h);
      Run(r.ctx, s.sent + r.sent)
  }

  /** Nothing is handed over once the walk has halted. */
  lemma {:induction false} HaltedStays(ts: seq<Token>, h: Handler)
    ensures Exec(ts, Halted, h) == Run(Halted, [])
    decreases |ts|
  {
    if ts != [] {
      HaltedStays(ts[1..], h);
    }
  }

  /** Running from a position: the first token, then the rest. */
  lemma ExecAt(toks: seq<Token>, pos: nat, ctx: Ctx, h: Handler)
    requires pos < |toks|
    ensures Exec(toks[pos..], ctx, h) ==
      var s := Step(ctx, toks[pos], h);
      var r := Exec(toks[pos + 1..], s.ctx, h);
      Run(r.ctx, s.sent + r.sent)
  {
    assert toks[pos..][0] == toks[pos];
    assert toks[pos..][1..] == toks[pos + 1..];
  }

  /** From a position where reading fails, nothing more is handed over. */
  lemma FailedExec(toks: seq<Token>, pos: nat, e: Err, ctx: Ctx, h: Handler)
    requires FailsAt(toks, pos, e)
    ensures Exec(toks[pos..], ctx, h).sent == []
  {
    if pos < |toks| {
      ExecAt(toks, pos, ctx, h);
      HaltedStays(toks[pos + 1..], h);
    }
  }

  /** What the walk hands over after a level returned `err` at `pos`, when
      the level's caller resumes in `parent`: on nil the caller reads on; a
      handler error is passed up to the document loop, which reads on; stop,
      EOF and read errors end the walk. */
  function After(toks: seq<Token>, pos: nat, err: Err, parent: Ctx, h: Handler): seq<Tag>
    requires pos <= |toks|
  {
    match err
    case NoError => Exec(toks[pos..], parent, h).sent
    case HandlerError(_) => Exec(toks[pos..], Top, h).sent
    case _ => []
  }

  /** processDescription agrees with the desc context. */
  lemma {:induction false} DescAgrees(toks: seq<Token>, pos: nat, tag: Tag, d: Description, h: Handler)
    requires pos <= |toks|
    ensures var o := DescLoop(toks, pos, d);
      Exec(toks[pos..], InDesc(tag, d), h).sent ==
        if o.err == NoError then Exec(toks[o.pos..], InTag(tag.(descriptions := tag.descriptions + [o.desc])), h).sent
        else []
    decreases |toks| - pos
  {
    match ReadAt(toks, pos)
    case Failed(e) =>
      FailedExec(toks, pos, e, InDesc(tag, d), h);
    case Got(tk, next) =>
      ExecAt(toks, pos, InDesc(tag, d), h);
      if tk.CharData? {
        DescAgrees(toks, next, tag, d.(text := tk.text), h);
      } else if !(tk.End? && tk.name == "desc") {
        DescAgrees(toks, next, tag, d, h);
      }
  }

  /** processTag agrees with the tag context. */
  lemma {:induction false} TagAgrees(toks: seq<Token>, pos: nat, tag: Tag, h: Handler)
    requires pos <= |toks|
    ensures var o := TagLoop(toks, pos, tag, h);
      Exec(toks[pos..], InTag(tag), h).sent == o.sent + After(toks, o.pos, o.err, InTable(tag.table), h)
    decreases |toks| - pos
  {
    match ReadAt(toks, pos)
    case Failed(e) =>
      FailedExec(toks, pos, e, InTag(tag), h);
    case Got(tk, next) =>
      ExecAt(toks, pos, InTag(tag), h);
      if tk.Start? && tk.name == "desc" {
        DescThenTagAgrees(toks, pos, tag, h);
      } else if tk.End? && tk.name == "tag" {
        if h(tag).Stop? {
          HaltedStays(toks[next..], h);
        }
      } else {
        TagAgrees(toks, next, tag, h);
      }
  }

  /** The `<desc>` case of TagAgrees: the description loop, then the tag
      loop from where it stopped. */
  lemma {:induction false} DescThenTagAgrees(toks: seq<Token>, pos: nat, tag: Tag, h: Handler)
    requires pos < |toks| && toks[pos].Start? && toks[pos].name == "desc"
    ensures var d := DescLoop(toks, pos + 1, DescFromStart(toks[pos].attrs));
      var o' := TagLoop(toks, d.pos, if d.err == NoError then tag.(descriptions := tag.descriptions + [d.desc]) else tag, h);
      Exec(toks[pos + 1..], InDesc(tag, DescFromStart(toks[pos].attrs)), h).sent ==
        o'.sent + After(toks, o'.pos, o'.err, InTable(tag.table), h)
    decreases |toks| - pos, 0
  {
    var d0 := DescFromStart(toks[pos].attrs);
    var d := DescLoop(toks, pos + 1, d0);
    DescAgrees(toks, pos + 1, tag, d0, h);
    if d.err == NoError {
      TagAgrees(toks, d.pos, tag.(descriptions := tag.descriptions + [d.desc]), h);
    } else {
      assert TagLoop(toks, d.pos, tag, h) == Outcome(d.pos, d.err, []);
    }
  }

  /** processTable agrees with the table context. */
  lemma {:induction false} TableAgrees(toks: seq<Token>, pos: nat, table: TableInfo, h: Handler)
    requires pos <= |toks|
    ensures var o := TableLoop(toks, pos, table, h);
      Exec(toks[pos..], InTable(table), h).sent == o.sent + After(toks, o.pos, o.err, InInfo, h)
    decreases |toks| - pos
  {
    match ReadAt(toks, pos)
    case Failed(e) =>
      FailedExec(toks, pos, e, InTable(table), h);
    case Got(tk, next) =>
      ExecAt(toks, pos, InTable(table), h);
      if tk.Start? && tk.name == "tag" {
        TagThenTableAgrees(toks, pos, table, h);
      } else if !(tk.End? && tk.name == "table") {
        TableAgrees(toks, next, table, h);
      }
  }

  /** The `<tag>` case of TableAgrees: the tag loop, then, if it returned
      nil, the table loop from where it stopped. */
  lemma {:induction false} TagThenTableAgrees(toks: seq<Token>, pos: nat, table: TableInfo, h: Handler)
    requires pos < |toks| && toks[pos].Start? && toks[pos].name == "tag"
    ensures var g := TagFromStart(table, toks[pos].attrs);
      var o := TagLoop(toks, pos + 1, g, h);
      var r := if o.err != NoError then o else Prepend(o.sent, TableLoop(toks, o.pos, table, h));
      Exec(toks[pos + 1..], InTag(g), h).sent == r.sent + After(toks, r.pos, r.err, InInfo, h)
    decreases |toks| - pos, 0
  {
    var g := TagFromStart(table, toks[pos].attrs);
    var o := TagLoop(toks, pos + 1, g, h);
    TagAgrees(toks, pos + 1, g, h);
    if o.err == NoError {
      TableAgrees(toks, o.pos, table, h);
    }
  }

  /** processTagInfo agrees with the taginfo context. */
  lemma {:induction false} InfoAgrees(toks: seq<Token>, pos: nat, h: Handler)
    requires pos <= |toks|
    ensures var o := InfoLoop(toks, pos, h);
      Exec(toks[pos..], InInfo, h).sent == o.sent + After(toks, o.pos, o.err, Top, h)
    decreases |toks| - pos
  {
    match ReadAt(toks, pos)
    case Failed(e) =>
      FailedExec(toks, pos, e, InInfo, h);
    case Got(tk, next) =>
      ExecAt(toks, pos, InInfo, h);
      if tk.Start? && tk.name == "table" {
        TableThenInfoAgrees(toks, pos, h);
      } else if !(tk.End? && tk.name == "taginfo") {
        InfoAgrees(toks, next, h);
      }
  }

  /** The `<table>` case of InfoAgrees: the table loop, then, if it returned
      nil, the taginfo loop from where it stopped. */
  lemma {:induction false} TableThenInfoAgrees(toks: seq<Token>, pos: nat, h: Handler)
    requires pos < |toks| && toks[pos].Start? && toks[pos].name == "table"
    ensures var t := TableFromStart(toks[pos].attrs);
      var o := TableLoop(toks, pos + 1, t, h);
      var r := if o.err != NoError then o else Prepend(o.sent, InfoLoop(toks, o.pos, h));
      Exec(toks[pos + 1..], InTable(t), h).sent == r.sent + After(toks, r.pos, r.err, Top, h)
    decreases |toks| - pos, 0
  {
    var t := TableFromStart(toks[pos].attrs);
    var o := TableLoop(toks, pos + 1, t, h);
    TableAgrees(toks, pos + 1, t, h);
    if o.err == NoError {
      InfoAgrees(toks, o.pos, h);
    }
  }

  /** The top-level loop of WalkTags agrees with the document context. */
  lemma {:induction false} WalkAgrees(toks: seq<Token>, pos: nat, h: Handler)
    requires pos <= |toks|
    ensures WalkLoop(toks, pos, h).sent == Exec(toks[pos..], Top, h).sent
    decreases |toks| - pos
  {
    match ReadAt(toks, pos)
    case Failed(e) =>
      FailedExec(toks, pos, e, Top, h);
    case Got(tk, next) =>
      ExecAt(toks, pos, Top, h);
      if tk.Start? && tk.name == "taginfo" {
        var o := InfoLoop(toks, next, h);
        InfoAgrees(toks, next, h);
        if o.err != ErrStop {
          WalkAgrees(toks, o.pos, h);
          if o.err != NoError && !o.err.HandlerError? {
            assert WalkLoop(toks, o.pos, h).sent == [];
            FailedExec(toks, o.pos, o.err, Top, h);
          }
        }
      } else {
        WalkAgrees(toks, next, h);
      }
  }

  /** The walk hands the handler exactly the tags the context machine emits,
      in the same order, whatever the tokens and whatever the handler. */
  lemma WalkIsMachine(toks: seq<Token>, h: Handler)
    ensures WalkLoop(toks, 0, h).sent == Exec(toks, Top, h).sent
  {
    WalkAgrees(toks, 0, h);
    assert toks[0..] == toks;
  }

  /** From the document or taginfo level, tokens without a `<table>` start
      hand nothing over: a `<tag>` outside a table is skipped. */
  lemma {:induction false} NoTableNoTags(ts: seq<Token>, ctx: Ctx, h: Handler)
    requires ctx == Top || ctx == InInfo || ctx == Halted
    requires forall i :: 0 <= i < |ts| ==> !(ts[i].Start? && ts[i].name == "table")
    ensures Exec(ts, ctx, h).sent == []
    decreases |ts|
  {
    if ts != [] {
      assert forall i :: 0 <= i < |ts[1..]| ==> ts[1..][i] == ts[i + 1];
      NoTableNoTags(ts[1..], Step(ctx, ts[0], h).ctx, h);
    }
  }

  /** A stream without any `<table>` start never calls the handler. */
  lemma WalkWithoutTables(toks: seq<Token>, h: Handler)
    requires forall i :: 0 <= i < |toks| ==> !(toks[i].Start? && toks[i].name == "table")
    ensures WalkLoop(toks, 0, h).sent == []
  {
    WalkIsMachine(toks, h);
    NoTableNoTags(toks, Top, h);
  }

  /** From the document level, tokens without a `<taginfo>` start hand
      nothing over: `<table>` and `<tag>` elements outside a catalog are
      skipped. */
  lemma {:induction false} NoInfoNoTags(ts: seq<Token>, ctx: Ctx, h: Handler)
    requires ctx == Top || ctx == Halted
    requires forall i :: 0 <= i < |ts| ==> !(ts[i].Start? && ts[i].name == "taginfo")
    ensures Exec(ts, ctx, h).sent == []
    decreases |ts|
  {
    if ts != [] {
      assert forall i :: 0 <= i < |ts[1..]| ==> ts[1..][i] == ts[i + 1];
      NoInfoNoTags(ts[1..], Step(ctx, ts[0], h).ctx, h);
    }
  }

  /** A stream without any `<taginfo>` start never calls the handler. */
  lemma WalkWithoutTagInfo(toks: seq<Token>, h: Handler)
    requires forall i :: 0 <= i < |toks| ==> !(toks[i].Start? && toks[i].name == "taginfo")
    ensures WalkLoop(toks, 0, h).sent == []
  {
    WalkIsMachine(toks, h);
    NoInfoNoTags(toks, Top, h);
  }
}
